// A thread looks up the span of an address under the page cache's lock and uses it later. What it found stays right
// while other threads work, since the span is in use until the thread itself gives the block or the object back.
module SpanLookups {
  import opened PageSpans
  import opened Blocks
  import opened FreeLists
  import opened BlockBooks
  import opened BlockSteps
  import opened BlockMoves

  // ---- what other threads leave alone ----

  // The chain of thread u and the spans of its blocks are as they were.
  ghost predicate SameFor(g: Books, g': Books, u: nat) {
    && (u in g'.flights <==> u in g.flights) && (u in g.flights ==> g'.flights[u] == g.flights[u])
    && At(g'.lists, FlightKey(u)) == At(g.lists, FlightKey(u))
    && forall b: Addr {:trigger b in At(g.lists, FlightKey(u))} :: b in At(g.lists, FlightKey(u)) ==>
      b in g.slots && b in g'.slots && g'.slots[b].home == g.slots[b].home
  }

  ghost predicate Others(g: Books, g': Books, t: nat) {
    forall u: nat :: u != t ==> SameFor(g, g', u)
  }

  lemma OthersNext(g: Books, g1: Books, g2: Books, t: nat)
    requires Others(g, g1, t) && Others(g1, g2, t)
    ensures Others(g, g2, t)
  {
    hide At;
    forall u: nat | u != t ensures SameFor(g, g2, u) {
      assert SameFor(g, g1, u) && SameFor(g1, g2, u);
    }
  }

  predicate OwnKey(k: Key, t: nat) {
    k.FlightKey? ==> k.t == t
  }

  lemma ShiftOthers(g: Books, from: Key, to: Key, n: nat, used: Spans, flights: map<nat, Flight>, t: nat)
    requires InPlace(g.lists, g.slots) && n <= |At(g.lists, from)| && from != to && OwnKey(from, t) && OwnKey(to, t)
    requires flights - {t} == g.flights - {t}
    ensures Others(g, Shifted(g, from, to, n, used, flights), t)
  {
    hide At, Moved, InPlace;
    var g' := Shifted(g, from, to, n, used, flights);
    forall u: nat | u != t ensures SameFor(g, g', u) {
      MovedAt(g.lists, from, to, n, FlightKey(u));
      FlightStays(g.flights, flights, t, u);
      forall b: Addr | b in At(g.lists, FlightKey(u))
        ensures b in g.slots && b in g'.slots && g'.slots[b].home == g.slots[b].home
      {
        PlaceOf(g.lists, g.slots, FlightKey(u), b);
      }
    }
  }

  lemma FlightStays(flights: map<nat, Flight>, flights': map<nat, Flight>, t: nat, u: nat)
    requires flights' - {t} == flights - {t} && u != t
    ensures u in flights' <==> u in flights
    ensures u in flights ==> flights'[u] == flights[u]
  {
    assert u in flights <==> u in flights - {t};
    assert u in flights' <==> u in flights' - {t};
    if u in flights { assert (flights - {t})[u] == (flights' - {t})[u]; }
  }

  lemma HandOutOthers(g: Books, t: nat, i: nat)
    requires InPlace(g.lists, g.slots) && At(g.lists, CacheKey(t, i)) != [] && At(g.lists, CacheKey(t, i))[0] in g.slots
    ensures Others(g, HandedOut(g, t, i), t)
  {
    hide InPlace;
    forall u: nat | u != t ensures SameFor(g, HandedOut(g, t, i), u) { ChainIn(g, u); }
  }

  lemma TakeBackOthers(g: Books, t: nat, i: nat, b: Addr)
    requires InPlace(g.lists, g.slots) && b in g.slots
    ensures Others(g, TakenBack(g, t, i, b), t)
  {
    hide InPlace;
    forall u: nat | u != t ensures SameFor(g, TakenBack(g, t, i, b), u) { ChainIn(g, u); }
  }

  // The blocks of a chain are known.
  lemma ChainIn(g: Books, u: nat)
    requires InPlace(g.lists, g.slots)
    ensures forall b: Addr {:trigger b in At(g.lists, FlightKey(u))} ::
      b in At(g.lists, FlightKey(u)) ==> b in g.slots && g.slots[b].at == FlightKey(u)
  {
    hide At;
  }

  lemma AddOthers(g: Books, ps: nat, r: Ref, s: Span, i: nat, t: nat)
    requires ps > 0 && InPlace(g.lists, g.slots) && HomesOk(g, ps) && NewSpanOk(g, ps, r, s, i)
    ensures Others(g, SpanAdded(g, ps, r, s, i), t)
  {
    hide InPlace, HomesOk, AllNodes, IsNode, Within, Total, At;
    var g' := SpanAdded(g, ps, r, s, i);
    AllNodesAre(s, ps);
    forall u: nat | u != t ensures SameFor(g, g', u) {
      ChainIn(g, u);
      WithSpanAt(g.lists, r, AllNodes(s, ps), FlightKey(u));
      forall b: Addr | b in At(g.lists, FlightKey(u))
        ensures b in g.slots && b in g'.slots && g'.slots[b].home == g.slots[b].home
      {
        if b in AllNodes(s, ps) { NewNodesUnknown(g, ps, r, s, i, b); }
      }
    }
  }

  lemma DropOthers(g: Books, r: Ref, i: nat, t: nat)
    requires InPlace(g.lists, g.slots) && i < |g.central|
    ensures Others(g, SpanDropped(g, r, i), t)
  {
    hide InPlace, Without;
    var g' := SpanDropped(g, r, i);
    forall u: nat | u != t ensures SameFor(g, g', u) {
      ChainIn(g, u);
      forall b: Addr | b in At(g.lists, FlightKey(u))
        ensures b in g.slots && b in g'.slots && g'.slots[b].home == g.slots[b].home
      {
        PlaceOf(g.lists, g.slots, SpanKey(r), b);
      }
    }
  }

  lemma LandOthers(g: Books, t: nat)
    requires InPlace(g.lists, g.slots)
    ensures Others(g, Landed(g, t), t)
  {
    hide InPlace, At;
    forall u: nat | u != t ensures SameFor(g, Landed(g, t), u) { ChainIn(g, u); }
  }

  // Steps of the large objects.
  lemma LargeOthers(g: Books, g': Books, t: nat)
    requires InPlace(g.lists, g.slots) && g'.lists == g.lists && g'.slots == g.slots && g'.flights == g.flights
    ensures Others(g, g', t)
  {
    hide InPlace, At;
    forall u: nat | u != t ensures SameFor(g, g', u) { ChainIn(g, u); }
  }

  // ---- what a thread has found ----

  // The spans that threads have looked up and not used yet.
  type LookUps = map<nat, Ref>

  // The span of the first block of the thread's chain, or the span of the large object that the thread is freeing.
  predicate Found(g: Books, t: nat, r: Ref) {
    if t in g.flights then
      && g.flights[t].returning && At(g.lists, FlightKey(t)) != []
      && At(g.lists, FlightKey(t))[0] in g.slots && g.slots[At(g.lists, FlightKey(t))[0]].home == r
    else r in g.large
  }

  // No two threads free one object.
  ghost predicate Known(g: Books, m: LookUps) {
    && (forall t :: t in m ==> Found(g, t, m[t]))
    && forall t, u :: t in m && u in m && t != u && t !in g.flights && u !in g.flights ==> m[t] != m[u]
  }

  lemma FoundStays(g: Books, g': Books, u: nat, r: Ref)
    requires Found(g, u, r) && SameFor(g, g', u) && (u !in g.flights ==> r in g'.large)
    ensures Found(g', u, r)
  {
    var s := At(g.lists, FlightKey(u));
    if u in g.flights { assert s[0] in s; }
  }

  // Another thread's step.
  lemma KnownStays(g: Books, g': Books, m: LookUps, t: nat)
    requires Known(g, m) && t !in m && Others(g, g', t) && g.large <= g'.large
    ensures Known(g', m)
  {
    hide At, SameFor, Found;
    forall u | u in m ensures Found(g', u, m[u]) && (u in g'.flights <==> u in g.flights) {
      assert SameFor(g, g', u) && Found(g, u, m[u]);
      SameFlight(g, g', u);
      if u !in g.flights { LargeFound(g, u, m[u]); }
      FoundStays(g, g', u, m[u]);
    }
  }

  lemma SameFlight(g: Books, g': Books, u: nat)
    requires SameFor(g, g', u)
    ensures u in g'.flights <==> u in g.flights
  {
    hide At;
  }

  lemma LargeFound(g: Books, u: nat, r: Ref)
    requires Found(g, u, r) && u !in g.flights
    ensures r in g.large
  {}

  lemma KnownLess(g: Books, m: LookUps, t: nat)
    requires Known(g, m)
    ensures Known(g, m - {t})
  {
    hide Found;
  }

  lemma KnownMore(g: Books, m: LookUps, t: nat, r: Ref)
    requires Known(g, m) && t !in m && Found(g, t, r) && (t !in g.flights ==> r !in m.Values)
    ensures Known(g, m[t := r])
  {
    hide Found;
  }

  // A thread gives its large object back.
  lemma KnownReleased(g: Books, m: LookUps, t: nat)
    requires Known(g, m) && t in m && t !in g.flights && InPlace(g.lists, g.slots)
    ensures Known(LargeDropped(g, m[t]), m - {t})
  {
    hide Found, SameFor, InPlace, At;
    var g', m' := LargeDropped(g, m[t]), m - {t};
    LargeOthers(g, g', t);
    forall u | u in m' ensures Found(g', u, m'[u]) && (u in g'.flights <==> u in g.flights) {
      assert SameFor(g, g', u) && Found(g, u, m[u]);
      if u !in g.flights { LargeFound(g, u, m[u]); }
      FoundStays(g, g', u, m[u]);
    }
  }
}
