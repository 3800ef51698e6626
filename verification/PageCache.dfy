// The page cache: spans of pages are handed out, split, taken back and merged.
module PageCache {
  import opened PageSpans

  // Span objects carved from one slab of the span pool.
  const SLAB: nat := 2048

  datatype Allocation = Failed | Allocated(span: Ref)

  // Pooled objects are distinct and not live.
  ghost predicate PoolOk(live: set<Ref>, pool: seq<Ref>, top: nat) {
    && NoDup(pool)
    && (forall r :: r in pool ==> r < top && r !in live)
    && (forall r :: r in live ==> r < top)
  }

  // Everything the cache keeps between its locked sections.
  ghost predicate Consistent(spans: Spans, lists: Lists, pages: Pages, pool: seq<Ref>, top: nat) {
    Tiled(spans, pages) && Listed(spans, lists, {}) && PoolOk(spans.Keys, pool, top)
  }

  // The spans that are handed out.
  function UsedOf(spans: Spans): Spans {
    map r | r in spans && spans[r].isUsed :: spans[r]
  }

  predicate Fresh(pages: Pages, start: nat, n: nat) {
    start >= 1 && forall p :: start <= p < start + n ==> p !in pages
  }

  // The first list from n up that holds a span, or |lists|.
  function FirstStocked(lists: Lists, n: nat): (i: nat)
    requires n <= |lists|
    ensures n <= i <= |lists| && (i < |lists| ==> lists[i] != [])
    ensures forall j :: n <= j < i ==> lists[j] == []
    decreases |lists| - n
  {
    if n == |lists| || lists[n] != [] then n else FirstStocked(lists, n + 1)
  }

  lemma RemapSame(spans: Spans, pages: Pages, r: Ref)
    requires Tiled(spans, pages) && r in spans
    ensures MapRange(pages, spans[r].pageId, spans[r].pageCount, r) == pages
  {
    hide MapRange, Owned, Sized;
    var pages' := MapRange(pages, spans[r].pageId, spans[r].pageCount, r);
    forall p: nat ensures p in pages' <==> p in pages
      ensures p in pages ==> pages'[p] == pages[p]
    {
      MapRangeAt(pages, spans[r].pageId, spans[r].pageCount, r, p);
      if Within(spans[r], p) { SpanMaps(spans, pages, r, p); }
    }
  }

  // ---- merging ----

  // The spans, the page map, and the span being freed.
  datatype Layout = Layout(spans: Spans, pages: Pages, freed: Ref)

  // The span before r is free and the two fit in one span.
  predicate JoinsLeft(l: Layout) {
    && l.freed in l.spans && l.spans[l.freed].pageId >= 1
    && var p := l.spans[l.freed].pageId - 1; p in l.pages && Adjacent(l.spans, l.pages[p], l.freed)
  }

  predicate JoinsRight(l: Layout) {
    && l.freed in l.spans
    && var p := l.spans[l.freed].pageId + l.spans[l.freed].pageCount;
      p in l.pages && Adjacent(l.spans, l.freed, l.pages[p])
  }

  function Joined(l: Layout, left: Ref, right: Ref): Layout
    requires left in l.spans && right in l.spans
  {
    Layout(Absorbed(l.spans, left, right),
      MapRange(l.pages, l.spans[left].pageId, l.spans[left].pageCount + l.spans[right].pageCount, left), left)
  }

  function JoinLeft(l: Layout): Layout {
    if JoinsLeft(l) then Joined(l, l.pages[l.spans[l.freed].pageId - 1], l.freed) else l
  }

  function JoinRight(l: Layout): Layout {
    if JoinsRight(l) then Joined(l, l.freed, l.pages[l.spans[l.freed].pageId + l.spans[l.freed].pageCount]) else l
  }

  // ---- what each move keeps of the whole ----

  lemma PoolKept(spans: Spans, spans': Spans, pool: seq<Ref>, top: nat)
    requires PoolOk(spans.Keys, pool, top) && spans'.Keys <= spans.Keys
    ensures PoolOk(spans'.Keys, pool, top)
  {}

  lemma TakeConsistent(spans: Spans, lists: Lists, pages: Pages, pool: seq<Ref>, top: nat, n: nat)
    requires Consistent(spans, lists, pages, pool, top) && 1 <= n <= MAX_PAGES && |lists| == MAX_PAGES + 1
    requires lists[n] != []
    ensures var r := lists[n][0];
      && r in spans && !spans[r].isUsed && spans[r].pageCount == n
      && MapRange(pages, spans[r].pageId, n, r) == pages
      && r !in UsedOf(spans) && UsedOf(Taken(spans, r)) == UsedOf(spans)[r := Taken(spans, r)[r]]
      && Consistent(Taken(spans, r), lists[n := lists[n][1..]], pages, pool, top)
  {
    hide PoolOk, Mapped, Owned, ListedFree, FreeListed, NoDups, MapRange;
    ListHead(spans, lists, {}, n);
    var r := lists[n][0];
    TakeTiles(spans, pages, r);
    TakeLists(spans, lists, n);
    RemapSame(spans, pages, r);
    PoolKept(spans, Taken(spans, r), pool, top);
  }

  lemma CutConsistent(spans: Spans, lists: Lists, pages: Pages, pool: seq<Ref>, top: nat, pool': seq<Ref>, top': nat,
      i: nat, small: Ref, n: nat)
    requires Consistent(spans, lists, pages, pool, top) && 1 <= n < i <= MAX_PAGES
    requires |lists| == MAX_PAGES + 1 && lists[i] != []
    requires small !in spans && PoolOk(spans.Keys + {small}, pool', top')
    ensures var big := lists[i][0];
      && big in spans && !spans[big].isUsed && spans[big].pageCount == i
      && small !in UsedOf(spans)
      && UsedOf(Cut(spans, big, small, n)) == UsedOf(spans)[small := Cut(spans, big, small, n)[small]]
      && Consistent(Cut(spans, big, small, n), lists[i := lists[i][1..]][i - n := lists[i - n] + [big]],
           MapRange(pages, spans[big].pageId, n, small), pool', top')
  {
    hide PoolOk, Mapped, Owned, ListedFree, FreeListed, NoDups, MapRange;
    ListHead(spans, lists, {}, i);
    var big := lists[i][0];
    CutTiles(spans, pages, big, small, n);
    CutLists(spans, lists, i, small, n);
    assert Cut(spans, big, small, n).Keys == spans.Keys + {small};
  }

  lemma ObtainConsistent(spans: Spans, lists: Lists, pages: Pages, pool: seq<Ref>, top: nat, pool': seq<Ref>, top': nat,
      r: Ref, start: nat, n: nat)
    requires Consistent(spans, lists, pages, pool, top) && 1 <= n <= MAX_PAGES && Fresh(pages, start, n)
    requires r !in spans && PoolOk(spans.Keys + {r}, pool', top')
    ensures r !in UsedOf(spans)
    ensures UsedOf(Obtained(spans, r, start, n)) == UsedOf(spans)[r := Obtained(spans, r, start, n)[r]]
    ensures Consistent(Obtained(spans, r, start, n), lists, MapRange(pages, start, n, r), pool', top')
  {
    hide PoolOk, Mapped, Owned, ListedFree, FreeListed, NoDups, MapRange;
    ObtainTiles(spans, pages, r, start, n);
    ObtainLists(spans, lists, r, start, n);
    assert Obtained(spans, r, start, n).Keys == spans.Keys + {r};
  }

  // While a span is being freed it is in no list.
  ghost predicate Freeing(spans: Spans, lists: Lists, pages: Pages, pool: seq<Ref>, top: nat, r: Ref) {
    r in spans && !spans[r].isUsed && Tiled(spans, pages) && Listed(spans, lists, {r}) && PoolOk(spans.Keys, pool, top)
  }

  lemma ReleaseConsistent(spans: Spans, lists: Lists, pages: Pages, pool: seq<Ref>, top: nat, r: Ref)
    requires Consistent(spans, lists, pages, pool, top) && r in spans && spans[r].isUsed
    ensures Freeing(Released(spans, r), lists, pages, pool, top, r) && UsedOf(Released(spans, r)) == UsedOf(spans) - {r}
  {
    hide PoolOk, Mapped, Owned, ListedFree, FreeListed, NoDups;
    ReleaseTiles(spans, pages, r);
    ReleaseLists(spans, lists, r);
    PoolKept(spans, Released(spans, r), pool, top);
  }

  lemma PoolTakesBack(spans: Spans, spans': Spans, pool: seq<Ref>, top: nat, r: Ref)
    requires PoolOk(spans.Keys, pool, top) && r in spans && r !in spans' && spans'.Keys <= spans.Keys
    ensures PoolOk(spans'.Keys, [r] + pool, top)
  {
    assert r !in pool;
  }

  lemma AbsorbConsistent(spans: Spans, lists: Lists, pages: Pages, pool: seq<Ref>, top: nat, left: Ref, right: Ref,
      out: Ref, listed: Ref)
    requires Freeing(spans, lists, pages, pool, top, out) && Adjacent(spans, left, right) && |lists| == MAX_PAGES + 1
    requires (out == left && listed == right) || (out == right && listed == left)
    ensures spans[listed].pageCount < |lists| && UsedOf(Absorbed(spans, left, right)) == UsedOf(spans)
    ensures var count := spans[listed].pageCount; Freeing(Absorbed(spans, left, right),
      lists[count := Without(lists[count], listed)],
      MapRange(pages, spans[left].pageId, spans[left].pageCount + spans[right].pageCount, left), [right] + pool, top,
          left)
  {
    hide PoolOk, Mapped, Owned, ListedFree, FreeListed, NoDups, MapRange;
    AbsorbTiles(spans, pages, left, right);
    AbsorbLists(spans, lists, left, right, out, listed);
    PoolTakesBack(spans, Absorbed(spans, left, right), pool, top, right);
  }

  lemma PushConsistent(spans: Spans, lists: Lists, pages: Pages, pool: seq<Ref>, top: nat, r: Ref)
    requires Freeing(spans, lists, pages, pool, top, r)
    ensures spans[r].pageCount < |lists|
    ensures var n := spans[r].pageCount; Consistent(spans, lists[n := lists[n] + [r]], pages, pool, top)
  {
    hide PoolOk, Mapped, Owned, ListedFree, FreeListed, NoDups;
    PushKeeps(spans, lists, r);
  }

  lemma FieldsConsistent(spans: Spans, lists: Lists, pages: Pages, pool: seq<Ref>, top: nat, r: Ref, blockSize: nat,
      freeCount: nat)
    requires Consistent(spans, lists, pages, pool, top) && r in spans && spans[r].isUsed
    ensures Consistent(spans[r := spans[r].(blockSize := blockSize, freeCount := freeCount)], lists, pages, pool, top)
  {
    hide PoolOk, Mapped, Owned, NoDups, Tiled;
    var spans' := spans[r := spans[r].(blockSize := blockSize, freeCount := freeCount)];
    SameGeometry(spans, spans', pages);
    TiledSized(spans, pages);
    TiledSized(spans', pages);
    assert spans'.Keys == spans.Keys;
  }

  lemma TiledSized(spans: Spans, pages: Pages)
    requires Tiled(spans, pages)
    ensures Sized(spans)
  {}

  lemma ListsShape(spans: Spans, lists: Lists, pages: Pages, pool: seq<Ref>, top: nat)
    requires Consistent(spans, lists, pages, pool, top)
    ensures |lists| == MAX_PAGES + 1 && PoolOk(spans.Keys, pool, top)
  {
    hide PoolOk, Mapped, Owned, ListedFree, FreeListed, NoDups;
  }

  class PageCache {
    var spans: Spans       // the live span objects
    var spanLists: Lists   // the free spans by page count
    var pageMap: Pages     // page_id_to_span_
    var pool: seq<Ref>     // deleted span objects, reused first
    var top: nat

    ghost predicate Valid()
      reads this
    {
      Consistent(spans, spanLists, pageMap, pool, top)
    }

    constructor ()
      ensures Valid() && spans == map[] && pageMap == map[]
    {
      spans := map[];
      spanLists := seq(MAX_PAGES + 1, _ => []);
      pageMap := map[];
      pool := [];
      top := 0;
    }

    // A span object from the pool; the pool grows by a slab when it is empty.
    method NewSpan() returns (r: Ref)
      requires PoolOk(spans.Keys, pool, top)
      modifies this`pool, this`top
      ensures r !in spans && PoolOk(spans.Keys + {r}, pool, top)
    {
      if pool == [] {
        var base := top;
        pool := seq(SLAB, i requires 0 <= i < SLAB => base + i);
        top := top + SLAB;
      }
      r := pool[0];
      assert r in pool;
      NewTaken(spans.Keys, pool, top);
      pool := pool[1..];
    }

    method MapPages(start: nat, n: nat, r: Ref)
      modifies this`pageMap
      ensures pageMap == MapRange(old(pageMap), start, n, r)
    {
      var i := 0;
      while i < n
        invariant 0 <= i <= n && pageMap == MapRange(old(pageMap), start, i, r)
      {
        pageMap := pageMap[start + i := r];
        i := i + 1;
      }
    }

    // The list of exactly n pages has a span.
    method TakeExact(n: nat) returns (r: Ref)
      requires Valid() && 1 <= n <= MAX_PAGES && |spanLists| == MAX_PAGES + 1 && spanLists[n] != []
      modifies this
      ensures Valid() && r in spans && spans[r].isUsed && spans[r].pageCount == n
      ensures r !in UsedOf(old(spans)) && UsedOf(spans) == UsedOf(old(spans))[r := spans[r]] && pageMap == old(pageMap)
      ensures |spanLists| == MAX_PAGES + 1 && r == old(spanLists)[n][0] && r in old(spans)
      ensures spans[r].pageId == old(spans)[r].pageId
    {
      hide Consistent, UsedOf, MapRange;
      TakeConsistent(spans, spanLists, pageMap, pool, top, n);
      r := spanLists[n][0];
      spanLists := spanLists[n := spanLists[n][1..]];
      MapPages(spans[r].pageId, spans[r].pageCount, r);
      spans := spans[r := spans[r].(isUsed := true)];
    }

    // The first n pages of the first span of list i become a span of their own.
    method TakeCut(n: nat, i: nat) returns (r: Ref)
      requires Valid() && 1 <= n < i <= MAX_PAGES && |spanLists| == MAX_PAGES + 1 && spanLists[i] != []
      modifies this
      ensures Valid() && r in spans && spans[r].isUsed && spans[r].pageCount == n
      ensures r !in UsedOf(old(spans)) && UsedOf(spans) == UsedOf(old(spans))[r := spans[r]]
      ensures pageMap.Keys == old(pageMap.Keys)
      ensures |spanLists| == MAX_PAGES + 1 && old(spanLists)[i][0] in old(spans)
      ensures spans[r].pageId == old(spans)[old(spanLists)[i][0]].pageId
    {
      hide Consistent, UsedOf, MapRange, PoolOk;
      ListsShape(spans, spanLists, pageMap, pool, top);
      var big := spanLists[i][0];
      ghost var pool0, top0 := pool, top;
      r := NewSpan();
      CutConsistent(spans, spanLists, pageMap, pool0, top0, pool, top, i, r, n);
      CutKeys(spans, spanLists, pageMap, pool0, top0, i, r, n);
      spanLists := spanLists[i := spanLists[i][1..]];
      var start := spans[big].pageId;
      spans := Cut(spans, big, r, n);
      spanLists := spanLists[i - n := spanLists[i - n] + [big]];
      MapPages(start, n, r);
    }

    method TakeFromSystem(n: nat, start: nat) returns (r: Ref)
      requires Valid() && 1 <= n <= MAX_PAGES && Fresh(pageMap, start, n)
      modifies this
      ensures Valid() && r in spans && spans[r].isUsed && spans[r].pageCount == n
      ensures r !in UsedOf(old(spans)) && UsedOf(spans) == UsedOf(old(spans))[r := spans[r]]
      ensures pageMap == MapRange(old(pageMap), start, n, r)
      ensures |spanLists| == MAX_PAGES + 1 && spans[r].pageId == start
    {
      hide Consistent, UsedOf, MapRange, PoolOk;
      ListsShape(spans, spanLists, pageMap, pool, top);
      ghost var pool0, top0 := pool, top;
      r := NewSpan();
      ObtainConsistent(spans, spanLists, pageMap, pool0, top0, pool, top, r, start, n);
      spans := spans[r := Span(start, n, 0, 0, true)];
      MapPages(start, n, r);
    }

    // Pages for n pages: a free span of that size, else part of the smallest larger one, else new pages from the
    // system, the pages from start.
    method AllocatePages(n: nat, start: nat) returns (a: Allocation)
      requires Valid() && |spanLists| == MAX_PAGES + 1
      requires n <= MAX_PAGES && FirstStocked(spanLists, n) > MAX_PAGES ==> Fresh(pageMap, start, n)
      modifies this
      ensures Valid() && |spanLists| == MAX_PAGES + 1
      ensures a.Failed? <==> n == 0 || n > MAX_PAGES
      ensures a.Failed? ==> unchanged(this)
      ensures a.Allocated? ==>
        var r := a.span;
        && r in spans && spans[r].isUsed && spans[r].pageCount == n
        && r !in UsedOf(old(spans)) && UsedOf(spans) == UsedOf(old(spans))[r := spans[r]]
      ensures a.Allocated? ==>
        var i := FirstStocked(old(spanLists), n);
        if i > MAX_PAGES
        then pageMap.Keys == old(pageMap.Keys) + PageSet(start, n) && spans[a.span].pageId == start
        else
          && pageMap.Keys == old(pageMap.Keys) && old(spanLists)[i][0] in old(spans)
          && spans[a.span].pageId == old(spans)[old(spanLists)[i][0]].pageId
    {
      hide Consistent, UsedOf, MapRange, Fresh;
      if n == 0 || n > MAX_PAGES {
        return Failed;
      }
      ListsShape(spans, spanLists, pageMap, pool, top);
      if spanLists[n] != [] {
        var r := TakeExact(n);
        return Allocated(r);
      }
      var i := n + 1;
      while i <= MAX_PAGES
        invariant n + 1 <= i <= MAX_PAGES + 1
        invariant forall j :: n <= j < i ==> spanLists[j] == []
      {
        if spanLists[i] != [] {
          var r := TakeCut(n, i);
          return Allocated(r);
        }
        i := i + 1;
      }
      var r := TakeFromSystem(n, start);
      ObtainedKeys(old(pageMap), start, n, r);
      return Allocated(r);
    }

    // The neighbour before the span absorbs it, when both fit in one span; then the span absorbs the neighbour
    // after it.
    method MergeSpan(span: Ref) returns (merged: Ref)
      requires Freeing(spans, spanLists, pageMap, pool, top, span)
      modifies this
      ensures Freeing(spans, spanLists, pageMap, pool, top, merged)
      ensures Layout(spans, pageMap, merged) == old(JoinRight(JoinLeft(Layout(spans, pageMap, span))))
      ensures UsedOf(spans) == UsedOf(old(spans)) && pageMap.Keys == old(pageMap.Keys)
    {
      hide Freeing, UsedOf, JoinLeft, JoinRight;
      merged := MergeLeft(span);
      MergeRight(merged);
    }

    method MergeLeft(span: Ref) returns (merged: Ref)
      requires Freeing(spans, spanLists, pageMap, pool, top, span)
      modifies this
      ensures Freeing(spans, spanLists, pageMap, pool, top, merged)
      ensures Layout(spans, pageMap, merged) == old(JoinLeft(Layout(spans, pageMap, span)))
      ensures UsedOf(spans) == UsedOf(old(spans)) && pageMap.Keys == old(pageMap.Keys)
    {
      hide Freeing, UsedOf, MapRange;
      merged := span;
      FreeingShape(spans, spanLists, pageMap, pool, top, span);
      var before := spans[span].pageId - 1;
      if before in pageMap {
        FreeingOwner(spans, spanLists, pageMap, pool, top, span, before);
        var prev := pageMap[before];
        if !spans[prev].isUsed && spans[span].pageCount + spans[prev].pageCount <= MAX_PAGES
          && spans[prev].pageId + spans[prev].pageCount == spans[span].pageId
        {
          AbsorbConsistent(spans, spanLists, pageMap, pool, top, prev, span, span, prev);
          AbsorbKeys(spans, spanLists, pageMap, pool, top, span, prev, span);
          var count := spans[prev].pageCount;
          spanLists := spanLists[count := Without(spanLists[count], prev)];
          spans := spans[prev := spans[prev].(pageCount := count + spans[span].pageCount)];
          pool := [span] + pool;
          spans := spans - {span};
          MapPages(spans[prev].pageId, spans[prev].pageCount, prev);
          merged := prev;
        }
      }
    }

    method MergeRight(span: Ref)
      requires Freeing(spans, spanLists, pageMap, pool, top, span)
      modifies this
      ensures Freeing(spans, spanLists, pageMap, pool, top, span)
      ensures Layout(spans, pageMap, span) == old(JoinRight(Layout(spans, pageMap, span)))
      ensures UsedOf(spans) == UsedOf(old(spans)) && pageMap.Keys == old(pageMap.Keys)
    {
      hide Freeing, UsedOf, MapRange;
      FreeingShape(spans, spanLists, pageMap, pool, top, span);
      var after := spans[span].pageId + spans[span].pageCount;
      if after in pageMap {
        FreeingOwner(spans, spanLists, pageMap, pool, top, span, after);
        var next := pageMap[after];
        if !spans[next].isUsed && spans[next].pageCount + spans[span].pageCount <= MAX_PAGES
          && spans[span].pageId + spans[span].pageCount == spans[next].pageId
        {
          AbsorbConsistent(spans, spanLists, pageMap, pool, top, span, next, span, next);
          AbsorbKeys(spans, spanLists, pageMap, pool, top, span, span, next);
          var count := spans[next].pageCount;
          spanLists := spanLists[count := Without(spanLists[count], next)];
          spans := spans[span := spans[span].(pageCount := spans[span].pageCount + count)];
          pool := [next] + pool;
          spans := spans - {next};
          MapPages(spans[span].pageId, spans[span].pageCount, span);
        }
      }
    }

    // A used span is taken back, merged with its free neighbours and listed.
    method FreePages(span: Ref)
      requires Valid() && span in spans
      modifies this
      ensures Valid() && |spanLists| == MAX_PAGES + 1 && pageMap.Keys == old(pageMap.Keys)
      ensures !old(spans)[span].isUsed ==> unchanged(this)
      ensures old(spans)[span].isUsed ==>
        var l := JoinRight(JoinLeft(Layout(Released(old(spans), span), old(pageMap), span)));
        spans == l.spans && pageMap == l.pages
      ensures UsedOf(spans) == UsedOf(old(spans)) - {span}
    {
      hide Consistent, Freeing, JoinLeft, JoinRight;
      ListsShape(spans, spanLists, pageMap, pool, top);
      if !spans[span].isUsed {
        assert UsedOf(spans) - {span} == UsedOf(spans);
        return;
      }
      ReleaseConsistent(spans, spanLists, pageMap, pool, top, span);
      spans := spans[span := spans[span].(isUsed := false, freeCount := 0)];
      var merged := MergeSpan(span);
      FreeingShape(spans, spanLists, pageMap, pool, top, merged);
      PushConsistent(spans, spanLists, pageMap, pool, top, merged);
      var count := spans[merged].pageCount;
      spanLists := spanLists[count := spanLists[count] + [merged]];
    }

    // The central cache's fields of a used span.
    method SetBlocks(r: Ref, blockSize: nat, freeCount: nat)
      requires Valid() && r in spans && spans[r].isUsed
      modifies this`spans
      ensures Valid() && spans == old(spans)[r := old(spans)[r].(blockSize := blockSize, freeCount := freeCount)]
      ensures UsedOf(spans) == UsedOf(old(spans))[r := spans[r]] && r in UsedOf(old(spans))
    {
      hide Consistent;
      FieldsConsistent(spans, spanLists, pageMap, pool, top, r, blockSize, freeCount);
      spans := spans[r := spans[r].(blockSize := blockSize, freeCount := freeCount)];
    }

    // The span a page is mapped to.
    function FindSpan(p: nat): (r: Allocation)
      reads this
    {
      if p in pageMap then Allocated(pageMap[p]) else Failed
    }
  }

  predicate PageIn(start: nat, n: nat, p: nat) {
    start <= p < start + n
  }

  function PageSet(start: nat, n: nat): set<nat> {
    set p | start <= p < start + n && PageIn(start, n, p)
  }

  lemma ObtainedKeys(pages: Pages, start: nat, n: nat, r: Ref)
    ensures MapRange(pages, start, n, r).Keys == pages.Keys + PageSet(start, n)
  {
    hide MapRange;
    forall p: nat ensures p in MapRange(pages, start, n, r) <==> p in pages || p in PageSet(start, n) {
      MapRangeAt(pages, start, n, r, p);
    }
  }

  lemma FreeingShape(spans: Spans, lists: Lists, pages: Pages, pool: seq<Ref>, top: nat, r: Ref)
    requires Freeing(spans, lists, pages, pool, top, r)
    ensures r in spans && !spans[r].isUsed && |lists| == MAX_PAGES + 1 && spans[r].pageId >= 1
    ensures 1 <= spans[r].pageCount <= MAX_PAGES
  {
    hide PoolOk, Mapped, Owned, ListedFree, FreeListed, NoDups;
  }

  // A page next to the freed span is owned by another live span.
  lemma FreeingOwner(spans: Spans, lists: Lists, pages: Pages, pool: seq<Ref>, top: nat, r: Ref, p: nat)
    requires Freeing(spans, lists, pages, pool, top, r) && p in pages && !Within(spans[r], p)
    ensures pages[p] in spans && pages[p] != r && Within(spans[pages[p]], p)
    ensures 1 <= spans[pages[p]].pageCount <= MAX_PAGES
  {
    hide PoolOk, Mapped, Owned, Listed;
    PageOwner(spans, pages, p);
  }

  lemma AbsorbKeys(spans: Spans, lists: Lists, pages: Pages, pool: seq<Ref>, top: nat, out: Ref, left: Ref, right: Ref)
    requires Freeing(spans, lists, pages, pool, top, out) && Adjacent(spans, left, right)
    ensures MapRange(pages, spans[left].pageId, spans[left].pageCount + spans[right].pageCount, left).Keys == pages.Keys
  {
    hide MapRange, PoolOk, Listed, Owned, Mapped, Sized;
    var n := spans[left].pageCount + spans[right].pageCount;
    forall p: nat ensures p in MapRange(pages, spans[left].pageId, n, left) <==> p in pages {
      MapRangeAt(pages, spans[left].pageId, n, left, p);
      if Within(spans[left], p) { SpanMaps(spans, pages, left, p); }
      if Within(spans[right], p) { SpanMaps(spans, pages, right, p); }
    }
  }

  lemma NewTaken(live: set<Ref>, pool: seq<Ref>, top: nat)
    requires PoolOk(live, pool, top) && pool != []
    ensures PoolOk(live + {pool[0]}, pool[1..], top)
  {
    assert pool[0] in pool;
    assert forall r :: r in pool[1..] ==> r in pool;
  }

  lemma CutKeys(spans: Spans, lists: Lists, pages: Pages, pool: seq<Ref>, top: nat, i: nat, r: Ref, n: nat)
    requires Consistent(spans, lists, pages, pool, top) && i < |lists| && lists[i] != [] && lists[i][0] in spans
    requires n <= spans[lists[i][0]].pageCount
    ensures MapRange(pages, spans[lists[i][0]].pageId, n, r).Keys == pages.Keys
  {
    hide MapRange, PoolOk, Listed, Owned;
    var s := spans[lists[i][0]];
    forall p: nat ensures p in MapRange(pages, s.pageId, n, r) <==> p in pages {
      MapRangeAt(pages, s.pageId, n, r, p);
      if s.pageId <= p < s.pageId + n { SpanMaps(spans, pages, lists[i][0], p); }
    }
  }
}
