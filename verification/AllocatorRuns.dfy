// What holds of the allocator after every interleaving of its threads.
module AllocatorRuns {
  import opened Options
  import opened PageSpans
  import opened Blocks
  import opened FreeLists
  import opened BlockBooks
  import opened BlockSteps
  import opened BlockMoves
  import opened Allocator
  import opened SpanLookups
  import P = PageCache
  import Arithmetic

  // ---- what the kept books mean ----

  // Bytes of a block in a caller's hands.
  predicate Live(g: Books, b: Addr) {
    b in g.slots && g.slots[b].at == Hands
  }

  function BlockSize(g: Books, b: Addr): nat {
    if b in g.slots && g.slots[b].home in g.used then g.used[g.slots[b].home].blockSize else 0
  }

  // Every whole block of a central span is in exactly one list, once, or in a caller's hands and in no list.
  lemma OnePlaceEach(g: Books, ps: nat, r: Ref, b: Addr)
    requires Kept(g, ps) && Small(g, r) && IsWhole(g.used[r], ps, b)
    ensures b in g.slots && g.slots[b].home == r
    ensures forall k :: b in At(g.lists, k) <==> k == g.slots[b].at && !Live(g, b)
    ensures forall k, x, y :: 0 <= x < y < |At(g.lists, k)| ==> At(g.lists, k)[x] != At(g.lists, k)[y]
  {
    hide SizesOk, CentralOk, HomesOk, PlacesOk, CountsOk, FlightsOk, ShortOk, At;
    forall k ensures b in At(g.lists, k) <==> k == g.slots[b].at && !Live(g, b) {
      PlaceOf(g.lists, g.slots, k, b);
    }
    forall k, x, y | 0 <= x < y < |At(g.lists, k)| ensures At(g.lists, k)[x] != At(g.lists, k)[y] {
      assert NoDup(At(g.lists, k));
    }
  }

  // A block in a caller's hands is a whole block of a central span.
  lemma LiveIsWhole(g: Books, ps: nat, b: Addr)
    requires Kept(g, ps) && Live(g, b)
    ensures Small(g, g.slots[b].home) && IsWhole(g.used[g.slots[b].home], ps, b)
  {
    hide SizesOk, CentralOk, NodesKnown, CountsOk, FlightsOk, ShortOk, Filed, IsWhole, IsNode;
    PlaceFits(g, ps, b);
    assert Small(g, g.slots[b].home);
  }

  // Blocks in callers' hands do not overlap.
  lemma LiveBlocksApart(g: Books, spans: Spans, pages: Pages, ps: nat, b: Addr, c: Addr)
    requires ps > 0 && Kept(g, ps) && Tiled(spans, pages) && g.used == P.UsedOf(spans)
    requires Live(g, b) && Live(g, c) && b != c
    ensures b + BlockSize(g, b) <= c || c + BlockSize(g, c) <= b
  {
    hide Kept, Tiled, IsWhole, IsNode;
    LiveIsWhole(g, ps, b);
    LiveIsWhole(g, ps, c);
    var r, q := g.slots[b].home, g.slots[c].home;
    if r == q {
      WholeIsNode(g.used[r], ps, b);
      WholeIsNode(g.used[r], ps, c);
      NodesApart(g.used[r], ps, b, c);
    } else {
      WholeInside(g.used[r], ps, b);
      WholeInside(g.used[q], ps, c);
      SpansApart(g, spans, pages, ps, r, q);
    }
  }

  lemma WholeIsNode(s: Span, ps: nat, b: Addr)
    requires IsWhole(s, ps, b)
    ensures IsNode(s, ps, b)
  {}

  lemma WholeInside(s: Span, ps: nat, b: Addr)
    requires IsWhole(s, ps, b)
    ensures Base(s, ps) <= b && b + s.blockSize <= Limit(s, ps)
  {}

  // Two used spans occupy disjoint bytes.
  lemma SpansApart(g: Books, spans: Spans, pages: Pages, ps: nat, r: Ref, q: Ref)
    requires ps > 0 && Tiled(spans, pages) && g.used == P.UsedOf(spans) && r in g.used && q in g.used && r != q
    ensures Limit(g.used[r], ps) <= Base(g.used[q], ps) || Limit(g.used[q], ps) <= Base(g.used[r], ps)
  {
    hide Mapped, Owned;
    UsedIn(spans, r);
    UsedIn(spans, q);
    var s, u := spans[r], spans[q];
    if s.pageId + s.pageCount <= u.pageId {
      Arithmetic.MulMono(ps, s.pageId + s.pageCount, u.pageId);
    } else if u.pageId + u.pageCount <= s.pageId {
      Arithmetic.MulMono(ps, u.pageId + u.pageCount, s.pageId);
    } else {
      SpansDisjoint(spans, pages, r, q, if s.pageId < u.pageId then u.pageId else s.pageId);
    }
  }

  // A block in a caller's hands does not overlap a large object.
  lemma LiveApartFromLarge(g: Books, spans: Spans, pages: Pages, ps: nat, b: Addr, r: Ref)
    requires ps > 0 && Kept(g, ps) && Tiled(spans, pages) && g.used == P.UsedOf(spans) && Live(g, b)
    requires r in g.large && r in g.used
    ensures b + BlockSize(g, b) <= Base(g.used[r], ps) || Limit(g.used[r], ps) <= b
  {
    hide Kept, Tiled, IsWhole, IsNode;
    LiveIsWhole(g, ps, b);
    WholeInside(g.used[g.slots[b].home], ps, b);
    SpansApart(g, spans, pages, ps, g.slots[b].home, r);
  }

  // free_count is the number of usable nodes: the list is that many whole blocks of the span, and below them the
  // truncated node when the block size does not divide the span.
  lemma FreeCountIsUsable(g: Books, ps: nat, r: Ref)
    requires ps > 0 && Kept(g, ps) && Small(g, r)
    ensures var list, n := At(g.lists, SpanKey(r)), g.used[r].freeCount;
      && n <= |list| <= n + 1
      && (forall b :: b in list[..n] ==> IsWhole(g.used[r], ps, b))
      && (|list| == n + 1 ==> IsNode(g.used[r], ps, list[n]) && !IsWhole(g.used[r], ps, list[n]))
      && (|list| == n + 1 <==> Tails(g.used[r], ps) == 1)
  {
    hide SizesOk, CentralOk, HomesOk, NodesKnown, PlacesOk, FlightsOk, ShortOk, InPlace, Present, Distinct, IsWhole,
      AllNodes, IsNode, Tails;
    var list, n := At(g.lists, SpanKey(r)), g.used[r].freeCount;
    SpanCount(g, ps, r);
    forall b | b in list[..n] ensures IsWhole(g.used[r], ps, b) {
      UsableWhole(g, ps, r, b);
    }
    if |list| == n + 1 {
      SpanPages(g, r);
      AllNodesAre(g.used[r], ps);
      TailIsLast(g.used[r], ps, list[n]);
    }
  }

  // A truncated node never leaves the bottom of its own span's list.
  lemma TruncatedStays(g: Books, ps: nat, r: Ref, b: Addr)
    requires ps > 0 && Kept(g, ps) && Small(g, r) && IsNode(g.used[r], ps, b) && !IsWhole(g.used[r], ps, b)
    ensures b in g.slots && g.slots[b] == Slot(r, SpanKey(r)) && !Live(g, b)
    ensures var list := At(g.lists, SpanKey(r)); list != [] && list[|list| - 1] == b
    ensures forall k :: b in At(g.lists, k) ==> k == SpanKey(r)
  {
    hide SizesOk, CentralOk, HomesOk, NodesKnown, PlacesOk, FlightsOk, ShortOk, CountsOk, Distinct, IsWhole, AllNodes,
      IsNode, At;
    TruncatedKnown(g, ps, r, b);
    PlaceFits(g, ps, b);
    SpanPages(g, r);
    TailIsLast(g.used[r], ps, b);
    SpanCount(g, ps, r);
    forall k ensures b in At(g.lists, k) ==> k == SpanKey(r) { PlaceOf(g.lists, g.slots, k, b); }
  }

  lemma TruncatedKnown(g: Books, ps: nat, r: Ref, b: Addr)
    requires NodesKnown(g, ps) && Small(g, r) && IsNode(g.used[r], ps, b)
    ensures b in g.slots && g.slots[b].home == r
  {}

  // No thread's list is longer than two batches.
  lemma ThreadListsShort(g: Books, ps: nat, t: nat, i: nat)
    requires Kept(g, ps)
    ensures |At(g.lists, CacheKey(t, i))| <= 2 * BatchNum(SizeOf(i))
  {
    KeptShort(g, ps, t, i);
  }

  // ---- the blocks in callers' hands change only by allocations and frees ----

  function LiveSet(g: Books): set<Addr> {
    set b | b in g.slots && g.slots[b].at == Hands
  }

  // Moving nodes out of a list to another list.
  lemma ShiftLive(g: Books, from: Key, to: Key, n: nat, used: Spans, flights: map<nat, Flight>)
    requires InPlace(g.lists, g.slots) && n <= |At(g.lists, from)| && to != Hands
    ensures LiveSet(Shifted(g, from, to, n, used, flights)) == LiveSet(g)
  {
    hide At, Moved, InPlace;
    var g' := Shifted(g, from, to, n, used, flights);
    forall b ensures b in LiveSet(g') <==> b in LiveSet(g) {
      PlaceOf(g.lists, g.slots, from, b);
      assert b in At(g.lists, from)[..n] ==> b in At(g.lists, from);
    }
  }

  lemma AddLive(g: Books, ps: nat, r: Ref, s: Span, i: nat)
    requires ps > 0 && HomesOk(g, ps) && NewSpanOk(g, ps, r, s, i)
    ensures LiveSet(SpanAdded(g, ps, r, s, i)) == LiveSet(g)
  {
    hide AllNodes, HomesOk, IsNode, Within, Total;
    var g' := SpanAdded(g, ps, r, s, i);
    AllNodesAre(s, ps);
    forall b ensures b in LiveSet(g') <==> b in LiveSet(g) {
      if b in AllNodes(s, ps) { NewNodesUnknown(g, ps, r, s, i, b); }
    }
  }

  lemma DropLive(g: Books, r: Ref, i: nat)
    requires InPlace(g.lists, g.slots) && i < |g.central|
    ensures LiveSet(SpanDropped(g, r, i)) == LiveSet(g)
  {
    hide At, InPlace;
    forall b ensures b in LiveSet(SpanDropped(g, r, i)) <==> b in LiveSet(g) {
      PlaceOf(g.lists, g.slots, SpanKey(r), b);
    }
  }

  lemma OneBackLive(g: Books, ps: nat, t: nat)
    requires ps > 0 && Kept(g, ps) && t in g.flights && g.flights[t].returning
    ensures Kept(OneBack(g, ps, t), ps) && LiveSet(OneBack(g, ps, t)) == LiveSet(g)
    ensures OneBack(g, ps, t).flights == g.flights
    ensures At(g.lists, FlightKey(t)) != [] ==>
      |At(OneBack(g, ps, t).lists, FlightKey(t))| == |At(g.lists, FlightKey(t))| - 1
  {
    hide Core, ShortOk, At, SizeOf, Total;
    if At(g.lists, FlightKey(t)) != [] {
      ReturnKeeps(g, ps, t);
      FlightIndex(g, ps, t);
      KeptPlaces(g, ps);
      var r := g.slots[At(g.lists, FlightKey(t))[0]].home;
      var g1 := Returned(g, t, r);
      KeptPlaces(g1, ps);
      ReturnedSpan(g, t, r);
      ShiftLive(g, FlightKey(t), SpanKey(r), 1, MoreFree(g.used, r), g.flights);
      if g1.used[r].freeCount == g1.used[r].pageCount * ps / SizeOf(g.flights[t].index) {
        DropLive(g1, r, g.flights[t].index);
        BackInFull(g1, ps, r, g.flights[t].index);
        DropKeeps(g1, ps, r, g.flights[t].index);
      }
    }
  }

  lemma KeptPlaces(g: Books, ps: nat)
    requires Kept(g, ps)
    ensures InPlace(g.lists, g.slots) && |g.central| == CLASSES && HomesOk(g, ps)
  {
    hide InPlace, SizesOk, HomesOk, NodesKnown, PlacesOk, CountsOk, FlightsOk, ShortOk, Present, Distinct;
  }

  lemma BackInFull(g: Books, ps: nat, r: Ref, i: nat)
    requires i < CLASSES && |g.central| == CLASSES && Small(g, r) && g.used[r].blockSize == SizeOf(i) && SizeOf(i) > 0
    requires g.used[r].freeCount == g.used[r].pageCount * ps / SizeOf(i)
    ensures AllBack(g, ps, r, i)
  {}

  lemma {:induction false} ReturnManyLive(g: Books, ps: nat, t: nat, n: nat)
    requires ps > 0 && Kept(g, ps) && t in g.flights && g.flights[t].returning
    ensures LiveSet(ReturnMany(g, ps, t, n)) == LiveSet(g)
    decreases n
  {
    hide Kept, At, OneBack, LiveSet;
    if n > 0 {
      OneBackLive(g, ps, t);
      ReturnManyLive(OneBack(g, ps, t), ps, t, n - 1);
    }
  }

  lemma OneBackOthers(g: Books, ps: nat, t: nat)
    requires ps > 0 && Kept(g, ps) && t in g.flights && g.flights[t].returning
    ensures Others(g, OneBack(g, ps, t), t) && OneBack(g, ps, t).large == g.large
  {
    hide Core, ShortOk, At, SizeOf, Total, Others;
    KeptPlaces(g, ps);
    if At(g.lists, FlightKey(t)) != [] {
      ReturnKeeps(g, ps, t);
      FlightIndex(g, ps, t);
      var r := g.slots[At(g.lists, FlightKey(t))[0]].home;
      var g1 := Returned(g, t, r);
      KeptPlaces(g1, ps);
      ShiftOthers(g, FlightKey(t), SpanKey(r), 1, MoreFree(g.used, r), g.flights, t);
      if g1.used[r].freeCount == g1.used[r].pageCount * ps / SizeOf(g.flights[t].index) {
        DropOthers(g1, r, g.flights[t].index, t);
        OthersNext(g, g1, SpanDropped(g1, r, g.flights[t].index), t);
      }
    } else {
      LargeOthers(g, g, t);
    }
  }

  lemma LandLive(g: Books, t: nat)
    ensures LiveSet(Landed(g, t)) == LiveSet(g)
  {}

  lemma FetchLive(g: Books, source: Books, ps: nat, r: Ref, t: nat, i: nat, n: nat, q: Ref, s: Span)
    requires ps > 0 && Kept(g, ps) && Kept(source, ps) && r in source.used
    requires n <= |At(source.lists, SpanKey(r))| && n <= source.used[r].freeCount
    requires source == g || (NewSpanOk(g, ps, q, s, i) && source == SpanAdded(g, ps, q, s, i))
    ensures LiveSet(Fetched(source, r, t, i, n)) == LiveSet(g)
  {
    hide Kept, At, LiveSet, SpanAdded, NewSpanOk;
    KeptPlaces(g, ps);
    KeptPlaces(source, ps);
    ShiftLive(source, SpanKey(r), FlightKey(t), n, LessFree(source.used, r, n), source.flights[t := Flight(i, false)]);
    if source != g { AddLive(g, ps, q, s, i); }
  }

  lemma HandOutLive(g: Books, ps: nat, t: nat, i: nat)
    requires Kept(g, ps) && t !in g.flights && At(g.lists, CacheKey(t, i)) != []
    requires At(g.lists, CacheKey(t, i))[0] in g.slots
    ensures var b := At(g.lists, CacheKey(t, i))[0];
      && b !in LiveSet(g) && LiveSet(HandedOut(g, t, i)) == LiveSet(g) + {b}
      && BlockSize(HandedOut(g, t, i), b) == SizeOf(i)
  {
    hide Core, ShortOk, At, SizeOf, IsWhole;
    HandOutKeeps(g, ps, t, i);
    KeptPlaces(g, ps);
    PlaceOf(g.lists, g.slots, CacheKey(t, i), At(g.lists, CacheKey(t, i))[0]);
  }

  lemma TakeBackLive(g: Books, t: nat, i: nat, b: Addr)
    requires b in g.slots
    ensures LiveSet(TakenBack(g, t, i, b)) == LiveSet(g) - {b}
  {}

  lemma CutLive(g: Books, ps: nat, t: nat, i: nat, n: nat)
    requires Core(g, ps) && n <= |At(g.lists, CacheKey(t, i))|
    ensures LiveSet(CutOff(g, t, i, n)) == LiveSet(g)
  {
    hide SizesOk, CentralOk, HomesOk, NodesKnown, PlacesOk, CountsOk, FlightsOk, Present, Distinct, InPlace, At,
      LiveSet;
    ShiftLive(g, CacheKey(t, i), FlightKey(t), n, g.used, g.flights[t := Flight(i, true)]);
  }

  lemma SpliceLive(g: Books, ps: nat, t: nat)
    requires Kept(g, ps) && t in g.flights
    ensures LiveSet(Spliced(g, t)) == LiveSet(g)
  {
    hide Kept, At, LiveSet;
    KeptPlaces(g, ps);
    ShiftLive(g, FlightKey(t), CacheKey(t, g.flights[t].index), |At(g.lists, FlightKey(t))|, g.used, g.flights - {t});
  }

  // ---- interleavings ----

  // One uninterrupted stretch of a thread: up to the end of the locked section it runs into, or after it, with at most
  // one visit to the page cache. Freeing a large object is a lookup and a release; returning a chain is a lookup and a
  // return for every block.
  datatype Action =
    | Allocate(t: nat, size: nat, start: nat)
    | FinishAllocate(t: nat)
    | Free(t: nat, ptr: Addr, size: nat)
    | Release(t: nat)
    | LookUpNext(t: nat)
    | ReturnNext(t: nat)
    | FinishFree(t: nat)

  // The list of a small size.
  function IndexOf(size: nat): (i: nat)
    requires 1 <= size <= MAX_SMALL
    ensures i < CLASSES && SizeOf(i) == AlignUp(size, ALIGN) && size <= SizeOf(i) < size + ALIGN
  {
    AlignUp(size, ALIGN) / ALIGN - 1
  }

  method AllocateSmall(a: Allocator, t: nat, size: nat, start: nat) returns (ptr: Option<Addr>)
    requires a.Valid() && 1 <= size <= MAX_SMALL && t !in a.flights
    requires At(a.lists, CacheKey(t, IndexOf(size))) == [] ==>
      a.SystemGives(BatchPages(IndexOf(size), a.pageSize), start)
    modifies a, a.pages
    ensures a.Valid()
    ensures ptr.None? ==> LiveSet(a.State()) == old(LiveSet(a.State())) && t in a.flights && !a.flights[t].returning
    ensures ptr.Some? ==> ptr.value !in old(LiveSet(a.State())) && BlockSize(a.State(), ptr.value) >= size
    ensures ptr.Some? ==> LiveSet(a.State()) == old(LiveSet(a.State())) + {ptr.value}
    ensures Others(old(a.State()), a.State(), t) && a.large == old(a.large)
  {
    hide Kept, At, LiveSet, P.Consistent, P.UsedOf, BlockSize, BatchPages, SpanAdded, NewSpanOk, CanFetch, Others;
    ghost var g := a.State();
    KeptCentral(g, a.pageSize);
    KeptPlaces(g, a.pageSize);
    var i := IndexOf(size);
    if At(a.lists, CacheKey(t, i)) != [] {
      var b := a.AllocateLocal(t, i);
      HandOutLive(g, a.pageSize, t, i);
      HandOutOthers(g, t, i);
      return Some(b);
    }
    ghost var source, r;
    var n;
    n, source, r := a.AllocateBatch(t, i, start);
    BatchLive(g, source, a.pageSize, r, t, i, n);
    BatchOthers(g, source, a.pageSize, r, t, i, n);
    return None;
  }

  lemma BatchOthers(g: Books, source: Books, ps: nat, r: Ref, t: nat, i: nat, n: nat)
    requires ps > 0 && Kept(g, ps) && i < |g.central| && CanFetch(source, r, t, i, n)
    requires n <= |At(source.lists, SpanKey(r))|
    requires FromStock(g, i) ==> source == g
    requires !FromStock(g, i) ==>
      r in source.used && NewSpanOk(g, ps, r, source.used[r], i) && source == SpanAdded(g, ps, r, source.used[r], i)
    ensures Others(g, Fetched(source, r, t, i, n), t) && Fetched(source, r, t, i, n).large == g.large
  {
    hide Kept, At, Others, NewSpanOk, FromStock;
    KeptPlaces(g, ps);
    var flights := source.flights[t := Flight(i, false)];
    if FromStock(g, i) {
      ShiftOthers(g, SpanKey(r), FlightKey(t), n, LessFree(source.used, r, n), flights, t);
    } else {
      var s := source.used[r];
      AddKeeps(g, ps, r, s, i);
      AddOthers(g, ps, r, s, i, t);
      KeptPlaces(source, ps);
      ShiftOthers(source, SpanKey(r), FlightKey(t), n, LessFree(source.used, r, n), flights, t);
      OthersNext(g, source, Fetched(source, r, t, i, n), t);
    }
  }

  lemma BatchLive(g: Books, source: Books, ps: nat, r: Ref, t: nat, i: nat, n: nat)
    requires ps > 0 && Kept(g, ps) && i < |g.central| && CanFetch(source, r, t, i, n)
    requires n <= |At(source.lists, SpanKey(r))|
    requires FromStock(g, i) ==> source == g
    requires !FromStock(g, i) ==>
      r in source.used && NewSpanOk(g, ps, r, source.used[r], i) && source == SpanAdded(g, ps, r, source.used[r], i)
    ensures LiveSet(Fetched(source, r, t, i, n)) == LiveSet(g)
  {
    hide Kept, At, LiveSet, SpanAdded, NewSpanOk, FromStock;
    var s := source.used[r];
    if !FromStock(g, i) { AddKeeps(g, ps, r, s, i); }
    FetchLive(g, source, ps, r, t, i, n, r, s);
  }

  method FinishSmall(a: Allocator, t: nat) returns (ptr: Addr)
    requires a.Valid() && t in a.flights && !a.flights[t].returning
    modifies a
    ensures a.Valid() && t !in a.flights && ptr !in old(LiveSet(a.State()))
    ensures LiveSet(a.State()) == old(LiveSet(a.State())) + {ptr}
    ensures BlockSize(a.State(), ptr) == SizeOf(old(a.flights)[t].index)
    ensures Others(old(a.State()), a.State(), t) && a.large == old(a.large)
  {
    hide Kept, At, LiveSet, P.Consistent, P.UsedOf, BlockSize, Others;
    ghost var g := a.State();
    var i := a.flights[t].index;
    SpliceLive(g, a.pageSize, t);
    SpliceOthers(g, a.pageSize, t);
    a.Splice(t);
    ghost var g1 := a.State();
    ptr := a.AllocateLocal(t, i);
    HandOutLive(g1, a.pageSize, t, i);
    KeptPlaces(g1, a.pageSize);
    HandOutOthers(g1, t, i);
    OthersNext(g, g1, a.State(), t);
  }

  lemma SpliceOthers(g: Books, ps: nat, t: nat)
    requires Kept(g, ps) && t in g.flights
    ensures Others(g, Spliced(g, t), t) && Spliced(g, t).large == g.large
  {
    hide Kept, At, Others;
    KeptPlaces(g, ps);
    var n := |At(g.lists, FlightKey(t))|;
    ShiftOthers(g, FlightKey(t), CacheKey(t, g.flights[t].index), n, g.used, g.flights - {t}, t);
  }

  method FreeSmall(a: Allocator, t: nat, ptr: Addr, size: nat)
    requires a.Valid() && 1 <= size <= MAX_SMALL && MayFree(a.State(), t, IndexOf(size), ptr)
    modifies a
    ensures a.Valid() && LiveSet(a.State()) == old(LiveSet(a.State())) - {ptr}
    ensures Others(old(a.State()), a.State(), t) && a.large == old(a.large)
  {
    hide Kept, Core, At, LiveSet, P.Consistent, P.UsedOf, BatchNum, SizeOf, Others;
    ghost var g := a.State();
    KeptPlaces(g, a.pageSize);
    var i := IndexOf(size);
    TakeBackKeeps(g, a.pageSize, t, i, ptr);
    TakeBackLive(g, t, i, ptr);
    TakeBackOthers(g, t, i, ptr);
    a.FreeLocal(t, i, ptr);
    ghost var g1, n := TakenBack(g, t, i, ptr), BatchNum(SizeOf(i));
    if |At(g1.lists, CacheKey(t, i))| > n * 2 {
      CutLive(g1, a.pageSize, t, i, n);
      CutOthers(g1, a.pageSize, t, i, n);
      OthersNext(g, g1, a.State(), t);
    }
  }

  lemma CutOthers(g: Books, ps: nat, t: nat, i: nat, n: nat)
    requires Core(g, ps) && n <= |At(g.lists, CacheKey(t, i))|
    ensures Others(g, CutOff(g, t, i, n), t) && CutOff(g, t, i, n).large == g.large
  {
    hide SizesOk, CentralOk, HomesOk, NodesKnown, PlacesOk, CountsOk, FlightsOk, Present, Distinct, InPlace, At,
      Others;
    ShiftOthers(g, CacheKey(t, i), FlightKey(t), n, g.used, g.flights[t := Flight(i, true)], t);
  }

  // FreeBatch, one block at a time, after the lookup of its span r: the page cache may serve other threads between the
  // lookup and the return, and between two blocks of a chain.
  method ReturnBlock(a: Allocator, t: nat, r: Ref)
    requires a.Valid() && t in a.flights && Found(a.State(), t, r)
    modifies a, a.pages
    ensures a.Valid() && a.flights == old(a.flights) && LiveSet(a.State()) == old(LiveSet(a.State()))
    ensures At(a.lists, FlightKey(t)) == At(old(a.lists), FlightKey(t))[1..]
    ensures Others(old(a.State()), a.State(), t) && a.large == old(a.large)
  {
    hide Kept, At, LiveSet, P.Consistent, P.UsedOf, OneBack, Others;
    KeptCentral(a.State(), a.pageSize);
    OneBackLive(a.State(), a.pageSize, t);
    OneBackOthers(a.State(), a.pageSize, t);
    a.ReturnOne(t, r);
  }

  method FinishReturn(a: Allocator, t: nat)
    requires a.Valid() && t in a.flights && a.flights[t].returning && At(a.lists, FlightKey(t)) == []
    modifies a
    ensures a.Valid() && t !in a.flights && LiveSet(a.State()) == old(LiveSet(a.State()))
    ensures Others(old(a.State()), a.State(), t) && a.large == old(a.large)
  {
    hide Kept, At, LiveSet, P.Consistent, P.UsedOf, Others;
    KeptPlaces(a.State(), a.pageSize);
    LandOthers(a.State(), t);
    LandLive(a.State(), t);
    LandedFlights(a.State(), t);
    a.Land(t);
  }

  lemma LandedFlights(g: Books, t: nat)
    ensures t !in Landed(g, t).flights
  {}

  // A thread that returns a whole chain without interruption.
  method ReturnAll(a: Allocator, t: nat)
    requires a.Valid() && t in a.flights && a.flights[t].returning
    modifies a, a.pages
    ensures a.Valid() && t !in a.flights && LiveSet(a.State()) == old(LiveSet(a.State()))
  {
    hide Kept, At, LiveSet, P.Consistent, P.UsedOf, ReturnMany;
    ghost var g := a.State();
    KeptCentral(g, a.pageSize);
    ghost var n := |At(a.lists, FlightKey(t))|;
    ReturnManyLive(g, a.pageSize, t, n);
    LandLive(ReturnMany(g, a.pageSize, t, n), t);
    a.FreeBatch(t);
    LandedFlights(ReturnMany(g, a.pageSize, t, n), t);
  }

  // Whether an action can be taken: its thread is where the action continues from, the system has pages when they
  // are asked for, and a freed block is in the caller's hands, freed with its own size, and freed once.
  predicate Enabled(a: Allocator, m: LookUps, action: Action)
    reads a, a.pages
  {
    match action
    case Allocate(t, size, start) =>
      t !in a.flights && t !in m && a.pageSize > 0 &&
      (if size > MAX_SMALL then a.SystemGives((size + a.pageSize - 1) / a.pageSize, start)
       else if size == 0 then true
       else At(a.lists, CacheKey(t, IndexOf(size))) == [] ==>
         a.SystemGives(BatchPages(IndexOf(size), a.pageSize), start))
    case FinishAllocate(t) => t in a.flights && !a.flights[t].returning
    case Free(t, ptr, size) =>
      t !in a.flights && t !in m && a.pageSize > 0 &&
      (if size > MAX_SMALL then
         && ptr / a.pageSize in a.pages.pageMap
         && var r := a.pages.pageMap[ptr / a.pageSize];
           && r in a.large && r in a.pages.spans && a.pages.spans[r].isUsed && r !in m.Values
           && ptr == Base(a.pages.spans[r], a.pageSize)
       else if size == 0 then true
       else
         && ptr in a.slots && a.slots[ptr].at == Hands
         && var r := a.slots[ptr].home;
           r in a.pages.spans && a.pages.spans[r].isUsed && a.pages.spans[r].blockSize == SizeOf(IndexOf(size)))
    case Release(t) => t in m && t !in a.flights
    case LookUpNext(t) => t in a.flights && a.flights[t].returning && At(a.lists, FlightKey(t)) != [] && t !in m
    case ReturnNext(t) => t in m && t in a.flights
    case FinishFree(t) => t in a.flights && a.flights[t].returning && At(a.lists, FlightKey(t)) == []
  }

  // What the threads have found stays right over every step.
  method Step(a: Allocator, m: LookUps, action: Action) returns (m': LookUps)
    requires a.Valid() && Known(a.State(), m) && Enabled(a, m, action)
    modifies a, a.pages
    ensures a.Valid() && Known(a.State(), m')
  {
    hide Kept, At, LiveSet, P.Consistent, P.UsedOf, Others, Known, Found;
    ghost var g := a.State();
    m' := m;
    match action {
      case Allocate(t, size, start) =>
        if size > MAX_SMALL {
          AllocateObject(a, m, t, size, start);
        } else if size > 0 {
          var p := AllocateSmall(a, t, size, start);
          KnownStays(g, a.State(), m, t);
        }
      case FinishAllocate(t) =>
        FetchingUnknown(g, m, t);
        var p := FinishSmall(a, t);
        KnownStays(g, a.State(), m, t);
      case Free(t, ptr, size) =>
        if size > MAX_SMALL {
          m' := LookUpObject(a, m, t, ptr);
        } else if size > 0 {
          UsedHere(a.pages.spans, a.slots[ptr].home);
          FreeSmall(a, t, ptr, size);
          KnownStays(g, a.State(), m, t);
        }
      case Release(t) =>
        ReleaseObject(a, m, t);
        m' := m - {t};
      case LookUpNext(t) =>
        var r := a.LookUp(t);
        ChainFound(g, t, r);
        KnownMore(g, m, t, r);
        m' := m[t := r];
      case ReturnNext(t) =>
        KnownAt(g, m, t);
        ReturnBlock(a, t, m[t]);
        KnownLess(g, m, t);
        m' := m - {t};
        KnownStays(g, a.State(), m', t);
      case FinishFree(t) =>
        EmptyUnknown(g, m, t);
        FinishReturn(a, t);
        KnownStays(g, a.State(), m, t);
    }
  }

  lemma UsedHere(spans: Spans, r: Ref)
    requires r in spans && spans[r].isUsed
    ensures r in P.UsedOf(spans) && P.UsedOf(spans)[r] == spans[r]
  {}

  lemma KnownAt(g: Books, m: LookUps, t: nat)
    requires Known(g, m) && t in m
    ensures Found(g, t, m[t])
  {}

  lemma ChainFound(g: Books, t: nat, r: Ref)
    requires t in g.flights && g.flights[t].returning && At(g.lists, FlightKey(t)) != []
    requires At(g.lists, FlightKey(t))[0] in g.slots && g.slots[At(g.lists, FlightKey(t))[0]].home == r
    ensures Found(g, t, r)
  {}

  // A thread that fetches a batch has looked nothing up, and neither has one with an empty chain.
  lemma FetchingUnknown(g: Books, m: LookUps, t: nat)
    requires Known(g, m) && t in g.flights && !g.flights[t].returning
    ensures t !in m
  {
    if t in m { KnownAt(g, m, t); }
  }

  lemma EmptyUnknown(g: Books, m: LookUps, t: nat)
    requires Known(g, m) && t in g.flights && At(g.lists, FlightKey(t)) == []
    ensures t !in m
  {
    if t in m { KnownAt(g, m, t); }
  }

  method AllocateObject(a: Allocator, m: LookUps, t: nat, size: nat, start: nat)
    requires a.Valid() && Known(a.State(), m) && t !in m
    requires size > MAX_SMALL && a.SystemGives((size + a.pageSize - 1) / a.pageSize, start)
    modifies a, a.pages
    ensures a.Valid() && Known(a.State(), m)
  {
    hide Kept, At, P.Consistent, P.UsedOf, Others, Known;
    ghost var g := a.State();
    KeptPlaces(g, a.pageSize);
    var p := a.AllocateLarge(size, start);
    LargeOthers(g, a.State(), t);
    KnownStays(g, a.State(), m, t);
  }

  method LookUpObject(a: Allocator, m: LookUps, t: nat, ptr: Addr) returns (m': LookUps)
    requires a.Valid() && Known(a.State(), m) && t !in m && t !in a.flights && ptr / a.pageSize in a.pages.pageMap
    requires var r := a.pages.pageMap[ptr / a.pageSize];
      && r in a.large && r in a.pages.spans && a.pages.spans[r].isUsed && r !in m.Values
      && ptr == Base(a.pages.spans[r], a.pageSize)
    ensures a.Valid() && Known(a.State(), m')
  {
    hide Kept, At, P.Consistent, Known;
    ghost var g := a.State();
    var r := a.LookUpLarge(ptr, a.pages.pageMap[ptr / a.pageSize]);
    KnownMore(g, m, t, r);
    m' := m[t := r];
  }

  method ReleaseObject(a: Allocator, m: LookUps, t: nat)
    requires a.Valid() && Known(a.State(), m) && t in m && t !in a.flights
    modifies a, a.pages
    ensures a.Valid() && Known(a.State(), m - {t})
  {
    hide Kept, At, P.Consistent, P.UsedOf, Known;
    ghost var g := a.State();
    KnownAt(g, m, t);
    KeptPlaces(g, a.pageSize);
    LargeUsed(g, a.pageSize, m[t]);
    KnownReleased(g, m, t);
    a.ReleaseLarge(m[t]);
  }

  lemma LargeUsed(g: Books, ps: nat, r: Ref)
    requires Kept(g, ps) && r in g.large
    ensures r in g.used
  {
    hide CentralOk, HomesOk, NodesKnown, PlacesOk, CountsOk, FlightsOk, ShortOk, Filed;
  }

  // Live blocks are disjoint, from each other and from large objects.
  ghost predicate Disjoint(g: Books, ps: nat) {
    && (forall b: Addr, c: Addr :: Live(g, b) && Live(g, c) && b != c ==>
         b + BlockSize(g, b) <= c || c + BlockSize(g, c) <= b)
    && (forall b: Addr, r: Ref :: Live(g, b) && r in g.large && r in g.used ==>
         b + BlockSize(g, b) <= Base(g.used[r], ps) || Limit(g.used[r], ps) <= b)
  }

  lemma ValidDisjoint(g: Books, spans: Spans, pageLists: Lists, pages: Pages, pool: seq<Ref>, top: nat, ps: nat)
    requires ps > 0 && Kept(g, ps) && P.Consistent(spans, pageLists, pages, pool, top) && g.used == P.UsedOf(spans)
    ensures Disjoint(g, ps)
  {
    hide Kept, Live, BlockSize, Tiled, Listed, P.PoolOk, P.UsedOf;
    forall b: Addr, c: Addr | Live(g, b) && Live(g, c) && b != c
      ensures b + BlockSize(g, b) <= c || c + BlockSize(g, c) <= b
    {
      LiveBlocksApart(g, spans, pages, ps, b, c);
    }
    forall b: Addr, r: Ref | Live(g, b) && r in g.large && r in g.used
      ensures b + BlockSize(g, b) <= Base(g.used[r], ps) || Limit(g.used[r], ps) <= b
    {
      LiveApartFromLarge(g, spans, pages, ps, b, r);
    }
  }

  lemma NothingKnown(g: Books)
    ensures Known(g, map[])
  {}

  // Every interleaving of any number of threads keeps the allocator's books, and its live blocks disjoint.
  method Run(ps: nat, schedule: seq<Action>) returns (a: Allocator)
    requires ps >= 4096
    ensures a.Valid() && Kept(a.State(), ps) && Disjoint(a.State(), ps)
  {
    hide Kept, Enabled, P.Consistent, P.UsedOf, Known;
    a := new Allocator(ps);
    var m: LookUps := map[];
    NothingKnown(a.State());
    var i := 0;
    while i < |schedule|
      invariant 0 <= i <= |schedule| && a.Valid() && a.pageSize == ps && fresh(a) && fresh(a.pages)
      invariant Known(a.State(), m)
    {
      if Enabled(a, m, schedule[i]) {
        m := Step(a, m, schedule[i]);
      }
      i := i + 1;
    }
    ValidDisjoint(a.State(), a.pages.spans, a.pages.spanLists, a.pages.pageMap, a.pages.pool, a.pages.top, ps);
  }
}
