// The allocator: thread caches over the central cache over the page cache. Every method is one locked section, one
// stretch of a thread's own work, or one visit to the page cache within a locked section.
module Allocator {
  import opened Options
  import opened PageSpans
  import opened Blocks
  import opened FreeLists
  import opened BlockBooks
  import opened BlockSteps
  import opened BlockMoves
  import P = PageCache
  import Arithmetic

  class Allocator {
    const pageSize: nat
    const pages: P.PageCache
    var central: Lists                 // the central cache's span lists by block size
    var lists: Heads                   // the intrusive lists of spans and threads
    var flights: map<nat, Flight>      // threads between a locked section and their own lists
    var slots: Slots                   // where every node is
    var large: set<Ref>                // the spans of large objects in callers' hands

    ghost function State(): Books
      reads this, pages
    {
      Books(P.UsedOf(pages.spans), central, large, lists, slots, flights)
    }

    ghost predicate Valid()
      reads this, pages
    {
      pageSize >= 4096 && pages.Valid() && |pages.spanLists| == MAX_PAGES + 1 && Kept(State(), pageSize)
    }

    constructor (ps: nat)
      requires ps >= 4096
      ensures Valid() && fresh(pages) && pageSize == ps && slots == map[] && large == {}
    {
      pageSize := ps;
      pages := new P.PageCache();
      central := seq(CLASSES, _ => []);
      lists, flights, slots, large := map[], map[], map[], {};
      new;
      EmptyKept(State(), pageSize);
    }

    // The first span of a central list with a free block.
    method FindSpan(i: nat) returns (found: Option<Ref>)
      requires Valid() && i < CLASSES && |central| == CLASSES
      ensures found.None? ==> forall r :: r in central[i] ==> r in State().used && State().used[r].freeCount == 0
      ensures found.Some? ==>
        found.value in central[i] && found.value in State().used && State().used[found.value].freeCount > 0
    {
      hide Kept, P.UsedOf, P.Consistent;
      var k := 0;
      while k < |central[i]|
        invariant 0 <= k <= |central[i]|
        invariant forall j :: 0 <= j < k ==> central[i][j] in State().used && State().used[central[i][j]].freeCount == 0
      {
        CentralUsed(State(), pageSize, i, central[i][k]);
        UsedIn(pages.spans, central[i][k]);
        if pages.spans[central[i][k]].freeCount > 0 {
          return Some(central[i][k]);
        }
        k := k + 1;
      }
      return None;
    }

    // A used span of pages for a batch of list i.
    method TakePages(i: nat, start: nat) returns (r: Ref)
      requires Valid() && i < CLASSES && SystemGives(BatchPages(i, pageSize), start)
      modifies pages
      ensures pages.Valid() && |pages.spanLists| == MAX_PAGES + 1
      ensures r in pages.spans && P.UsedOf(pages.spans) == old(P.UsedOf(pages.spans))[r := pages.spans[r]]
      ensures NewSpanOk(old(State()), pageSize, r, pages.spans[r], i)
      ensures pages.spans[r].pageCount == BatchPages(i, pageSize)
    {
      hide Kept, BatchNum, P.UsedOf, P.Consistent, BatchPages;
      ghost var g := State();
      BatchPagesFit(i, pageSize);
      KeptCentral(g, pageSize);
      var n := BatchPages(i, pageSize);
      var a := pages.AllocatePages(n, start);
      r := a.span;
      pages.SetBlocks(r, SizeOf(i), n * pageSize / SizeOf(i));
      FreshSpan(g, pages.spans, pages.pageMap, pages.spanLists, pages.pool, pages.top, pageSize, r, i);
    }

    // Pages for a batch of list i, threaded into blocks and listed.
    method NewCentralSpan(i: nat, start: nat) returns (r: Ref)
      requires Valid() && i < CLASSES && |central| == CLASSES && SystemGives(BatchPages(i, pageSize), start)
      modifies this, pages
      ensures Valid() && r in State().used && NewSpanOk(old(State()), pageSize, r, State().used[r], i)
      ensures State() == SpanAdded(old(State()), pageSize, r, State().used[r], i)
      ensures State().used[r].pageCount == BatchPages(i, pageSize)
    {
      hide Kept, SpanAdded, BatchNum, P.UsedOf, P.Consistent, BatchPages, Total, AllNodes, Within;
      ghost var g := State();
      r := TakePages(i, start);
      var s := pages.spans[r];
      SpanExtent(s, pageSize);
      AddKeeps(g, pageSize, r, s, i);
      var base := s.pageId * pageSize;
      var list := ThreadNodes(base, base + s.pageCount * pageSize, s.blockSize);
      NodesFrom(s, pageSize);
      lists := lists[SpanKey(r) := list];
      slots := Added(slots, r, list);
      central := central[i := central[i] + [r]];
      AddedIs(g, pageSize, r, s, i, State());
    }

    // AllocateBatch: up to a batch of blocks leaves the first central span that has any, or a new one.
    method AllocateBatch(t: nat, i: nat, start: nat) returns (n: nat, ghost source: Books, ghost r: Ref)
      requires Valid() && i < CLASSES && |central| == CLASSES && SystemGives(BatchPages(i, pageSize), start)
      requires t !in flights && At(lists, CacheKey(t, i)) == []
      modifies this, pages
      ensures Valid() && CanFetch(source, r, t, i, n) && n <= |At(source.lists, SpanKey(r))|
      ensures State() == Fetched(source, r, t, i, n)
      ensures var free, batch := source.used[r].freeCount, BatchNum(SizeOf(i));
        n == if free < batch then free else batch
      ensures FromStock(old(State()), i) ==> source == old(State())
      ensures !FromStock(old(State()), i) ==>
        && r in source.used && NewSpanOk(old(State()), pageSize, r, source.used[r], i)
        && source == SpanAdded(old(State()), pageSize, r, source.used[r], i) && n == BatchNum(SizeOf(i))
    {
      hide Kept, BatchNum, P.UsedOf, P.Consistent, BatchPages, SpanAdded, NewSpanOk, At, SizeOf;
      ghost var g := State();
      var found := FindSpan(i);
      StockFound(g, pageSize, i, found);
      var span: Ref;
      match found {
        case Some(q) =>
          span := q;
          CentralUsed(g, pageSize, i, span);
        case None =>
          span := NewCentralSpan(i, start);
          FreshStock(g, pageSize, span, State().used[span], i, CacheKey(t, i));
      }
      source, r := State(), span;
      UsedIn(pages.spans, span);
      var batch := BatchNum(SizeOf(i));
      var free := pages.spans[span].freeCount;
      n := if batch < free then batch else free;
      BatchPositive(SizeOf(i));
      TakeBatch(t, i, span, n);
    }

    // The first n nodes of a span's list are cut off as a chain of the thread.
    method TakeBatch(t: nat, i: nat, r: Ref, n: nat)
      requires Valid() && CanFetch(State(), r, t, i, n)
      modifies this, pages
      ensures Valid() && n <= |At(old(lists), SpanKey(r))| && State() == Fetched(old(State()), r, t, i, n)
    {
      hide Kept, P.Consistent, At, BatchNum, SizeOf, P.UsedOf;
      ghost var g := State();
      FetchKeeps(g, pageSize, r, t, i, n);
      UsedIn(pages.spans, r);
      pages.SetBlocks(r, pages.spans[r].blockSize, pages.spans[r].freeCount - n);
      slots := Relabelled(slots, At(lists, SpanKey(r))[..n], FlightKey(t));
      lists := Moved(lists, SpanKey(r), FlightKey(t), n);
      flights := flights[t := Flight(i, false)];
      FetchedIs(g, r, t, i, n, State());
    }

    // FetchFromCentralCache after the locked section: the chain goes onto the thread's list.
    method Splice(t: nat)
      requires Valid() && t in flights && !flights[t].returning
      modifies this
      ensures Valid() && State() == Spliced(old(State()), t)
      ensures At(lists, CacheKey(t, old(flights)[t].index)) == At(old(lists), FlightKey(t)) != []
    {
      hide Kept, P.Consistent, At, P.UsedOf;
      ghost var g := State();
      var i, n := flights[t].index, |At(lists, FlightKey(t))|;
      SpliceKeeps(g, pageSize, t);
      slots := Relabelled(slots, At(lists, FlightKey(t))[..n], CacheKey(t, i));
      lists := Moved(lists, FlightKey(t), CacheKey(t, i), n);
      flights := flights - {t};
      assert State() == Spliced(g, t);
    }

    // Allocate with a block on the thread's own list.
    method AllocateLocal(t: nat, i: nat) returns (b: Addr)
      requires Valid() && t !in flights && At(lists, CacheKey(t, i)) != []
      modifies this
      ensures Valid() && b == At(old(lists), CacheKey(t, i))[0] && b in old(slots)
      ensures State() == HandedOut(old(State()), t, i)
    {
      hide Kept, P.Consistent, At, P.UsedOf;
      HandOutKeeps(State(), pageSize, t, i);
      b := At(lists, CacheKey(t, i))[0];
      lists := Popped(lists, CacheKey(t, i));
      slots := Relabel(slots, b, Hands);
    }

    // Free up to the locked section: the block goes onto the thread's list, and a batch is cut off when the list
    // has become longer than two batches.
    method FreeLocal(t: nat, i: nat, b: Addr)
      requires Valid() && MayFree(State(), t, i, b)
      modifies this
      ensures Valid()
      ensures var g := TakenBack(old(State()), t, i, b);
        var length := |At(g.lists, CacheKey(t, i))|;
        var batch := BatchNum(SizeOf(i));
        State() == if length > batch * 2 then CutOff(g, t, i, batch) else g
    {
      hide Kept, Core, P.Consistent, At, P.UsedOf, BatchNum, SizeOf;
      ghost var g := TakenBack(State(), t, i, b);
      TakeBackKeeps(State(), pageSize, t, i, b);
      KeptShort(State(), pageSize, t, i);
      lists := Pushed(lists, CacheKey(t, i), b);
      slots := Relabel(slots, b, CacheKey(t, i));
      assert State() == g;
      var batch := BatchNum(SizeOf(i));
      BatchPositive(SizeOf(i));
      if |At(lists, CacheKey(t, i))| > batch * 2 {
        CutKeeps(g, pageSize, t, i, batch);
        slots := Relabelled(slots, At(lists, CacheKey(t, i))[..batch], FlightKey(t));
        lists := Moved(lists, CacheKey(t, i), FlightKey(t), batch);
        flights := flights[t := Flight(i, true)];
        assert State() == CutOff(g, t, i, batch);
      } else {
        StillShort(g, pageSize, t, i);
      }
    }

    // FreeBatch: every block of the thread's chain goes back to its own span, and a span with all its blocks back
    // goes back to the page cache.
    method FreeBatch(t: nat)
      requires Valid() && t in flights && flights[t].returning && |central| == CLASSES
      modifies this, pages
      ensures Valid() && State() == Landed(ReturnMany(old(State()), pageSize, t, |At(old(lists), FlightKey(t))|), t)
    {
      hide Kept, P.Consistent, At, P.UsedOf, OneBack;
      ghost var n := |At(lists, FlightKey(t))|;
      while At(lists, FlightKey(t)) != []
        invariant Valid() && t in flights && flights == old(flights) && |central| == CLASSES
        invariant ReturnMany(State(), pageSize, t, |At(lists, FlightKey(t))|)
          == ReturnMany(old(State()), pageSize, t, n)
        decreases |At(lists, FlightKey(t))|
      {
        var r := LookUp(t);
        ReturnOne(t, r);
      }
      Land(t);
    }

    // FindSpanByAddr for the first block of the chain.
    method LookUp(t: nat) returns (r: Ref)
      requires Valid() && t in flights && flights[t].returning && At(lists, FlightKey(t)) != []
      ensures At(lists, FlightKey(t))[0] in slots && r == slots[At(lists, FlightKey(t))[0]].home
    {
      hide Kept, P.Consistent, At, P.UsedOf;
      var b := At(lists, FlightKey(t))[0];
      ReturnKeeps(State(), pageSize, t);
      NodeLookup(State(), pages.spans, pages.pageMap, pages.spanLists, pages.pool, pages.top, pageSize, b);
      var found := pages.FindSpan(b / pageSize);
      r := found.span;
    }

    // The chain has been returned, and the thread goes on.
    method Land(t: nat)
      requires Valid() && t in flights && flights[t].returning && At(lists, FlightKey(t)) == []
      modifies this
      ensures Valid() && State() == Landed(old(State()), t)
    {
      hide Kept, P.Consistent, At, P.UsedOf;
      LandKeeps(State(), pageSize, t);
      flights := flights - {t};
    }

    // One block of the chain goes back to its span r.
    method ReturnOne(t: nat, r: Ref)
      requires Valid() && t in flights && flights[t].returning && |central| == CLASSES && At(lists, FlightKey(t)) != []
      requires At(lists, FlightKey(t))[0] in slots && r == slots[At(lists, FlightKey(t))[0]].home
      modifies this, pages
      ensures Valid() && flights == old(flights) && |central| == CLASSES
      ensures State() == OneBack(old(State()), pageSize, t)
      ensures At(lists, FlightKey(t)) == At(old(lists), FlightKey(t))[1..]
    {
      hide Kept, P.Consistent, At, P.UsedOf, SizeOf;
      ghost var g := State();
      var b, i := At(lists, FlightKey(t))[0], flights[t].index;
      ReturnKeeps(g, pageSize, t);
      NodeLookup(g, pages.spans, pages.pageMap, pages.spanLists, pages.pool, pages.top, pageSize, b);
      UsedIn(pages.spans, r);
      pages.SetBlocks(r, pages.spans[r].blockSize, pages.spans[r].freeCount + 1);
      slots := Relabelled(slots, At(lists, FlightKey(t))[..1], SpanKey(r));
      lists := Moved(lists, FlightKey(t), SpanKey(r), 1);
      assert State() == Returned(g, t, r);
      FlightIndex(g, pageSize, t);
      ReturnedSpan(g, t, r);
      var total := pages.spans[r].pageCount * pageSize / SizeOf(i);
      if pages.spans[r].freeCount == total {
        GiveUp(r, i);
      }
    }

    // A central span with all its blocks back goes back to the page cache.
    method GiveUp(r: Ref, i: nat)
      requires Valid() && |central| == CLASSES && AllBack(State(), pageSize, r, i)
      modifies this, pages
      ensures Valid() && flights == old(flights) && large == old(large) && |central| == CLASSES
      ensures State() == SpanDropped(old(State()), r, i)
      ensures forall t :: At(lists, FlightKey(t)) == At(old(lists), FlightKey(t))
    {
      hide Kept, P.Consistent, At, P.UsedOf, SizeOf, Total, Dropped;
      ghost var g := State();
      DropKeeps(g, pageSize, r, i);
      UsedIn(pages.spans, r);
      central := central[i := Without(central[i], r)];
      pages.FreePages(r);
      slots := Dropped(slots, At(lists, SpanKey(r)));
      lists := lists - {SpanKey(r)};
      assert State() == SpanDropped(g, r, i);
    }

    // Allocate for an object over 4096 bytes: a span of its own.
    method AllocateLarge(size: nat, start: nat) returns (ptr: Option<Addr>)
      requires Valid() && size > MAX_SMALL && SystemGives((size + pageSize - 1) / pageSize, start)
      modifies this, pages
      ensures Valid()
      ensures ptr.None? <==> (size + pageSize - 1) / pageSize > MAX_PAGES
      ensures ptr.None? ==> State() == old(State())
      ensures ptr.Some? ==> exists r ::
        && r in State().used && r !in old(State()).used && State() == LargeAdded(old(State()), r, State().used[r])
        && ptr.value == Base(State().used[r], pageSize) && ptr.value + size <= Limit(State().used[r], pageSize)
    {
      hide Kept, P.Consistent, P.UsedOf;
      var n := (size + pageSize - 1) / pageSize;
      LargePages(size, pageSize);
      var a := pages.AllocatePages(n, start);
      if a.Failed? {
        return None;
      }
      var r := a.span;
      LargeAddKeeps(old(State()), pageSize, r, pages.spans[r]);
      large := large + {r};
      LargeExtent(pages.spans[r], pageSize, size);
      UsedIn(pages.spans, r);
      assert State() == LargeAdded(old(State()), r, State().used[r]);
      return Some(pages.spans[r].pageId * pageSize);
    }

    // Free of an object over 4096 bytes.
    method FreeLarge(ptr: Addr, ghost r: Ref)
      requires Valid() && r in large && r in State().used && ptr == Base(State().used[r], pageSize)
      modifies this, pages
      ensures Valid() && State() == LargeDropped(old(State()), r)
    {
      hide Kept, P.Consistent, P.UsedOf;
      var found := LookUpLarge(ptr, r);
      ReleaseLarge(found);
    }

    // FindSpanByAddr for a large object.
    method LookUpLarge(ptr: Addr, ghost r: Ref) returns (found: Ref)
      requires Valid() && r in large && r in State().used && ptr == Base(State().used[r], pageSize)
      ensures found == r
    {
      hide Kept, P.Consistent, P.UsedOf;
      LargeLookup(State(), pages.spans, pages.pageMap, pages.spanLists, pages.pool, pages.top, pageSize, r);
      found := pages.FindSpan(ptr / pageSize).span;
    }

    // The span of a large object goes back to the page cache.
    method ReleaseLarge(r: Ref)
      requires Valid() && r in large && r in State().used
      modifies this, pages
      ensures Valid() && State() == LargeDropped(old(State()), r)
    {
      hide Kept, P.Consistent, P.UsedOf;
      LargeDropKeeps(State(), pageSize, r);
      UsedIn(pages.spans, r);
      pages.FreePages(r);
      large := large - {r};
      assert State() == LargeDropped(old(State()), r);
    }

    // The system has pages for n when no free span has.
    predicate SystemGives(n: nat, start: nat)
      reads pages
    {
      n <= MAX_PAGES < |pages.spanLists| && P.FirstStocked(pages.spanLists, n) > MAX_PAGES ==>
        P.Fresh(pages.pageMap, start, n)
    }
  }

  lemma EmptyKept(g: Books, ps: nat)
    requires g.used == map[] && g.large == {} && g.lists == map[] && g.slots == map[] && g.flights == map[]
    requires |g.central| == CLASSES && forall i :: 0 <= i < CLASSES ==> g.central[i] == []
    ensures Kept(g, ps)
  {}

  lemma CentralUsed(g: Books, ps: nat, i: nat, r: Ref)
    requires Kept(g, ps) && i < |g.central| && r in g.central[i]
    ensures Small(g, r) && g.used[r].blockSize == SizeOf(i)
  {
    hide SizesOk, HomesOk, NodesKnown, PlacesOk, CountsOk, FlightsOk, ShortOk, Filed;
  }

  // Pages that hold one batch of list i.
  function BatchPages(i: nat, ps: nat): nat
    requires ps > 0
  {
    var n := (SizeOf(i) * BatchNum(SizeOf(i)) + ps - 1) / ps;
    if n < 1 then 1 else n
  }

  lemma BatchBytes(size: nat)
    requires 1 <= size <= MAX_SMALL
    ensures size * BatchNum(size) <= 16384
  {}

  lemma BatchPagesFit(i: nat, ps: nat)
    requires i < CLASSES && ps >= 4096
    ensures 1 <= BatchPages(i, ps) <= 4 && BatchPages(i, ps) * ps / SizeOf(i) >= BatchNum(SizeOf(i))
  {
    hide BatchNum;
    var size, batch, n := SizeOf(i), BatchNum(SizeOf(i)), BatchPages(i, ps);
    var bytes := size * batch;
    BatchBytes(size);
    Arithmetic.QuotientBound(ps, bytes + ps - 1, 5);
    Arithmetic.DivRem(ps, bytes + ps - 1);
    assert n * ps >= bytes;
    Arithmetic.QuotientBound(size, n * ps, batch);
    assert batch * size == bytes;
  }

  lemma KeptCentral(g: Books, ps: nat)
    requires Kept(g, ps)
    ensures |g.central| == CLASSES
  {}

  lemma NodesFrom(s: Span, ps: nat)
    requires s.blockSize > 0 && s.pageCount > 0 && ps > 0
    ensures AllNodes(s, ps) == Threaded(s.pageId * ps, s.pageId * ps + s.pageCount * ps, s.blockSize)
  {
    SpanExtent(s, ps);
  }

  lemma FreshSpan(g: Books, spans: Spans, pages: Pages, pageLists: Lists, pool: seq<Ref>, top: nat, ps: nat, r: Ref,
      i: nat)
    requires P.Consistent(spans, pageLists, pages, pool, top) && r in spans && r !in g.used
    requires P.UsedOf(spans) == g.used[r := spans[r]] && i < CLASSES && |g.central| == CLASSES
    requires spans[r].blockSize == SizeOf(i) && spans[r].freeCount == spans[r].pageCount * ps / SizeOf(i)
    ensures NewSpanOk(g, ps, r, spans[r], i)
  {
    hide P.PoolOk, Listed, Mapped, Owned;
    forall q, p | q in g.used && Within(g.used[q], p) ensures !Within(spans[r], p) {
      assert q in P.UsedOf(spans);
      if Within(spans[r], p) { SpansDisjoint(spans, pages, q, r, p); }
    }
  }

  lemma AddedIs(g: Books, ps: nat, r: Ref, s: Span, i: nat, g': Books)
    requires i < |g.central| && s.blockSize > 0
    requires g'.used == g.used[r := s] && g'.central == g.central[i := g.central[i] + [r]] && g'.large == g.large
    requires g'.lists == g.lists[SpanKey(r) := AllNodes(s, ps)] && g'.slots == Added(g.slots, r, AllNodes(s, ps))
    requires g'.flights == g.flights
    ensures g' == SpanAdded(g, ps, r, s, i)
  {}

  // Some span of central list i has a free block.
  ghost predicate FromStock(g: Books, i: nat)
    requires i < |g.central|
  {
    exists r :: r in g.central[i] && r in g.used && g.used[r].freeCount > 0
  }

  lemma StockFound(g: Books, ps: nat, i: nat, found: Option<Ref>)
    requires Kept(g, ps) && i < |g.central|
    requires found.None? ==> forall r :: r in g.central[i] ==> r in g.used && g.used[r].freeCount == 0
    requires found.Some? ==> found.value in g.central[i] && found.value in g.used && g.used[found.value].freeCount > 0
    ensures found.Some? <==> FromStock(g, i)
  {
    hide Kept;
  }

  lemma UsedIn(spans: Spans, r: Ref)
    requires r in P.UsedOf(spans)
    ensures r in spans && spans[r].isUsed && P.UsedOf(spans)[r] == spans[r]
  {}

  lemma FetchedIs(g: Books, r: Ref, t: nat, i: nat, n: nat, g': Books)
    requires r in g.used && n <= |At(g.lists, SpanKey(r))| && n <= g.used[r].freeCount
    requires g'.used == g.used[r := g.used[r].(freeCount := g.used[r].freeCount - n)] && g'.central == g.central
    requires g'.large == g.large && g'.lists == Moved(g.lists, SpanKey(r), FlightKey(t), n)
    requires g'.slots == Relabelled(g.slots, At(g.lists, SpanKey(r))[..n], FlightKey(t))
    requires g'.flights == g.flights[t := Flight(i, false)]
    ensures g' == Fetched(g, r, t, i, n)
  {}

  lemma BatchPositive(size: nat)
    ensures BatchNum(size) >= 1
  {}

  // A new span has a whole batch.
  lemma FreshStock(g: Books, ps: nat, r: Ref, s: Span, i: nat, k: Key)
    requires ps >= 4096 && Kept(g, ps) && NewSpanOk(g, ps, r, s, i) && s.pageCount == BatchPages(i, ps)
    ensures var g' := SpanAdded(g, ps, r, s, i);
      && Small(g', r) && g'.used[r] == s && s.blockSize == SizeOf(i) && s.freeCount >= BatchNum(SizeOf(i))
      && g'.flights == g.flights
      && (!k.SpanKey? ==> At(g'.lists, k) == At(g.lists, k))
  {
    hide CentralOk, HomesOk, NodesKnown, PlacesOk, CountsOk, FlightsOk, ShortOk, Filed, AllNodes, BatchPages,
      BatchNum, Within;
    BatchPagesFit(i, ps);
    WithSpanAt(g.lists, r, AllNodes(s, ps), k);
  }

  lemma KeptShort(g: Books, ps: nat, t: nat, i: nat)
    requires Kept(g, ps)
    ensures |At(g.lists, CacheKey(t, i))| <= 2 * BatchNum(SizeOf(i))
    ensures forall u, j :: |At(g.lists, CacheKey(u, j))| <= 2 * BatchNum(SizeOf(j))
  {
    hide Core, At, BatchNum, SizeOf;
  }

  lemma StillShort(g: Books, ps: nat, t: nat, i: nat)
    requires Core(g, ps) && |At(g.lists, CacheKey(t, i))| <= 2 * BatchNum(SizeOf(i))
    requires forall u, j :: u != t || j != i ==> |At(g.lists, CacheKey(u, j))| <= 2 * BatchNum(SizeOf(j))
    ensures Kept(g, ps)
  {
    hide Core, At, BatchNum, SizeOf;
  }

  // The page map leads from a node to its span.
  lemma NodeLookup(g: Books, spans: Spans, pages: Pages, pageLists: Lists, pool: seq<Ref>, top: nat, ps: nat, b: Addr)
    requires ps > 0 && Kept(g, ps) && P.Consistent(spans, pageLists, pages, pool, top) && g.used == P.UsedOf(spans)
    requires b in g.slots
    ensures b / ps in pages && pages[b / ps] == g.slots[b].home && g.slots[b].home in g.used
  {
    hide SizesOk, CentralOk, NodesKnown, PlacesOk, CountsOk, FlightsOk, ShortOk, Filed, P.PoolOk, Listed, Sized,
      Owned, Mapped;
    var r := g.slots[b].home;
    assert Small(g, r) && IsNode(g.used[r], ps, b);
    NodePage(g.used[r], ps, b);
    UsedIn(spans, r);
    SpanMaps(spans, pages, r, b / ps);
  }

  lemma FlightIndex(g: Books, ps: nat, t: nat)
    requires Kept(g, ps) && t in g.flights
    ensures g.flights[t].index < CLASSES && SizeOf(g.flights[t].index) > 0
  {
    hide SizesOk, CentralOk, HomesOk, NodesKnown, PlacesOk, CountsOk, ShortOk, Filed;
    assert FlightOk(g, t);
  }

  lemma ReturnedSpan(g: Books, t: nat, r: Ref)
    requires t in g.flights && Small(g, r) && At(g.lists, FlightKey(t)) != []
    ensures var s := Returned(g, t, r).used[r]; Small(Returned(g, t, r), r) && SameShape(g.used[r], s)
  {}

  // The first node of a thread's chain goes back to its span, and the span is given up when that was its last block.
  function OneBack(g: Books, ps: nat, t: nat): Books {
    if t !in g.flights || At(g.lists, FlightKey(t)) == [] then g
    else
      var b, i := At(g.lists, FlightKey(t))[0], g.flights[t].index;
      if b !in g.slots || g.slots[b].home !in g.used || i >= |g.central| then g
      else
        var r := g.slots[b].home;
        var g1 := Returned(g, t, r);
        if g1.used[r].freeCount == g1.used[r].pageCount * ps / SizeOf(i) then SpanDropped(g1, r, i) else g1
  }

  function ReturnMany(g: Books, ps: nat, t: nat, n: nat): Books
    decreases n
  {
    if n == 0 then g else ReturnMany(OneBack(g, ps, t), ps, t, n - 1)
  }

  lemma LargePages(size: nat, ps: nat)
    requires ps > 0 && size > 0
    ensures 1 <= (size + ps - 1) / ps && size <= (size + ps - 1) / ps * ps
  {
    Arithmetic.DivRem(ps, size + ps - 1);
    Arithmetic.QuotientBound(ps, size + ps - 1, 1);
  }

  lemma LargeExtent(s: Span, ps: nat, size: nat)
    requires ps > 0 && size > 0 && s.pageCount == (size + ps - 1) / ps
    ensures Base(s, ps) + size <= Limit(s, ps)
  {
    LargePages(size, ps);
    SpanExtent(s, ps);
  }

  lemma LargeLookup(g: Books, spans: Spans, pages: Pages, pageLists: Lists, pool: seq<Ref>, top: nat, ps: nat, r: Ref)
    requires ps > 0 && Kept(g, ps) && P.Consistent(spans, pageLists, pages, pool, top) && g.used == P.UsedOf(spans)
    requires r in g.large && r in g.used
    ensures var p := Base(g.used[r], ps) / ps; p in pages && pages[p] == r
  {
    hide Kept, P.PoolOk, Listed, Owned, Mapped;
    UsedIn(spans, r);
    Arithmetic.DivMod(ps, spans[r].pageId, 0);
    assert Within(spans[r], spans[r].pageId);
    SpanMaps(spans, pages, r, spans[r].pageId);
  }
}
