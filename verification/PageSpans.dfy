// Spans of pages: the bookkeeping of the page cache as values, and what each of its moves keeps.
module PageSpans {

  type Ref = nat    // a span object
  type Addr = nat   // a byte address

  datatype Span = Span(pageId: nat, pageCount: nat, blockSize: nat, freeCount: nat, isUsed: bool)

  type Spans = map<Ref, Span>
  type Pages = map<nat, Ref>
  type Lists = seq<seq<Ref>>

  const MAX_PAGES: nat := 128

  predicate Within(s: Span, p: nat) {
    s.pageId <= p < s.pageId + s.pageCount
  }

  // ---- tiling: every span maps all its pages, and every mapped page lies in the live span it is mapped to ----

  ghost predicate Sized(spans: Spans) {
    forall r :: r in spans ==> 1 <= spans[r].pageId && 1 <= spans[r].pageCount <= MAX_PAGES
  }

  ghost predicate Mapped(spans: Spans, pages: Pages) {
    forall r, p :: r in spans && Within(spans[r], p) ==> p in pages && pages[p] == r
  }

  ghost predicate Owned(spans: Spans, pages: Pages) {
    forall p :: p in pages ==> pages[p] in spans && Within(spans[pages[p]], p)
  }

  ghost predicate Tiled(spans: Spans, pages: Pages) {
    Sized(spans) && Mapped(spans, pages) && Owned(spans, pages)
  }

  // Distinct spans share no page.
  lemma SpansDisjoint(spans: Spans, pages: Pages, r: Ref, q: Ref, p: nat)
    requires Tiled(spans, pages) && r in spans && q in spans && Within(spans[r], p) && Within(spans[q], p)
    ensures r == q
  {
    assert pages[p] == r;
  }

  lemma SpanMaps(spans: Spans, pages: Pages, r: Ref, p: nat)
    requires Mapped(spans, pages) && r in spans && Within(spans[r], p)
    ensures p in pages && pages[p] == r
  {}

  lemma PageOwner(spans: Spans, pages: Pages, p: nat)
    requires Owned(spans, pages) && p in pages
    ensures pages[p] in spans && Within(spans[pages[p]], p)
  {}

  // ---- lists: a free span is in exactly the list of its page count, a used span in none ----

  ghost predicate NoDup<T>(s: seq<T>) {
    forall i, j :: 0 <= i < j < |s| ==> s[i] != s[j]
  }

  // Spans in out are in no list even when they are free.
  ghost predicate ListedFree(spans: Spans, lists: Lists, out: set<Ref>) {
    forall i, r :: 0 <= i < |lists| && r in lists[i] ==>
      r in spans && r !in out && !spans[r].isUsed && spans[r].pageCount == i
  }

  ghost predicate FreeListed(spans: Spans, lists: Lists, out: set<Ref>)
    requires |lists| == MAX_PAGES + 1 && Sized(spans)
  {
    forall r :: r in spans && r !in out && !spans[r].isUsed ==> r in lists[spans[r].pageCount]
  }

  ghost predicate NoDups(lists: Lists) {
    forall i :: 0 <= i < |lists| ==> NoDup(lists[i])
  }

  ghost predicate Listed(spans: Spans, lists: Lists, out: set<Ref>)
    requires Sized(spans)
  {
    |lists| == MAX_PAGES + 1 && ListedFree(spans, lists, out) && FreeListed(spans, lists, out) && NoDups(lists)
  }

  function Without(s: seq<Ref>, r: Ref): (t: seq<Ref>)
    ensures forall x :: x in t <==> x in s && x != r
  {
    if s == [] then []
    else if s[0] == r then Without(s[1..], r) else [s[0]] + Without(s[1..], r)
  }

  lemma {:induction false} WithoutNoDup(s: seq<Ref>, r: Ref)
    requires NoDup(s)
    ensures NoDup(Without(s, r))
  {
    if s != [] {
      assert NoDup(s[1..]);
      WithoutNoDup(s[1..], r);
      var t := Without(s[1..], r);
      if s[0] != r {
        forall i, j | 0 <= i < j < |t| + 1 ensures ([s[0]] + t)[i] != ([s[0]] + t)[j] {
          assert ([s[0]] + t)[j] == t[j - 1] && t[j - 1] in t;
          assert t[j - 1] in s[1..];
        }
      }
    }
  }

  // ---- mapping a range of pages ----

  function MapRange(pages: Pages, start: nat, n: nat, r: Ref): Pages {
    if n == 0 then pages else MapRange(pages, start, n - 1, r)[start + n - 1 := r]
  }

  lemma {:induction false} MapRangeAt(pages: Pages, start: nat, n: nat, r: Ref, p: nat)
    ensures start <= p < start + n ==> p in MapRange(pages, start, n, r) && MapRange(pages, start, n, r)[p] == r
    ensures !(start <= p < start + n) ==> (p in MapRange(pages, start, n, r) <==> p in pages)
    ensures !(start <= p < start + n) && p in pages ==> MapRange(pages, start, n, r)[p] == pages[p]
    decreases n
  {
    if n > 0 { MapRangeAt(pages, start, n - 1, r, p); }
  }

  // ---- moves ----

  // Handing out a listed span.
  function Taken(spans: Spans, r: Ref): Spans
    requires r in spans
  {
    spans[r := spans[r].(isUsed := true)]
  }

  // Tiling looks only at where spans are.
  lemma SameGeometry(spans: Spans, spans': Spans, pages: Pages)
    requires Tiled(spans, pages) && spans'.Keys == spans.Keys
    requires forall r :: r in spans ==> spans'[r].pageId == spans[r].pageId && spans'[r].pageCount == spans[r].pageCount
    ensures Tiled(spans', pages)
  {
    assert Sized(spans');
    assert forall r, p :: r in spans && Within(spans'[r], p) ==> Within(spans[r], p);
    assert Mapped(spans', pages);
  }

  lemma TakeTiles(spans: Spans, pages: Pages, r: Ref)
    requires Tiled(spans, pages) && r in spans
    ensures Tiled(Taken(spans, r), pages)
  {
    hide Tiled;
    SameGeometry(spans, Taken(spans, r), pages);
  }

  lemma ListHead(spans: Spans, lists: Lists, out: set<Ref>, n: nat)
    requires Sized(spans) && Listed(spans, lists, out) && n <= MAX_PAGES && lists[n] != []
    ensures var r := lists[n][0]; r in spans && !spans[r].isUsed && spans[r].pageCount == n
  {
    assert lists[n][0] in lists[n];
  }

  // Popping the head of list n: the other lists are as before and do not hold it.
  lemma PoppedList(spans: Spans, lists: Lists, n: nat)
    requires Sized(spans) && Listed(spans, lists, {}) && n <= MAX_PAGES && lists[n] != []
    ensures var lists' := lists[n := lists[n][1..]];
      && NoDups(lists') && ListedFree(spans, lists', {lists[n][0]}) && FreeListed(spans, lists', {lists[n][0]})
  {
    var r := lists[n][0];
    var lists' := lists[n := lists[n][1..]];
    assert r in lists[n];
    assert NoDup(lists[n]);
    forall i, q | 0 <= i < |lists'| && q in lists'[i]
      ensures q in spans && q != r && !spans[q].isUsed && spans[q].pageCount == i
    {
      assert q in lists[i];
    }
    forall q | q in spans && q != r && !spans[q].isUsed ensures q in lists'[spans[q].pageCount] {
      assert q in lists[spans[q].pageCount];
    }
  }

  lemma TakeLists(spans: Spans, lists: Lists, n: nat)
    requires Sized(spans) && Listed(spans, lists, {}) && n <= MAX_PAGES && lists[n] != []
    requires lists[n][0] in spans
    ensures Sized(Taken(spans, lists[n][0])) && Listed(Taken(spans, lists[n][0]), lists[n := lists[n][1..]], {})
  {
    hide NoDups, NoDup;
    PoppedList(spans, lists, n);
  }

  // Cutting the first n pages off a listed span of i pages, as a new used span.
  function Cut(spans: Spans, big: Ref, small: Ref, n: nat): Spans
    requires big in spans && n <= spans[big].pageCount
  {
    var b := spans[big];
    spans[big := b.(pageId := b.pageId + n, pageCount := b.pageCount - n)][small := Span(b.pageId, n, 0, 0, true)]
  }

  lemma CutTiles(spans: Spans, pages: Pages, big: Ref, small: Ref, n: nat)
    requires Tiled(spans, pages) && big in spans && small !in spans && 1 <= n < spans[big].pageCount
    ensures Tiled(Cut(spans, big, small, n), MapRange(pages, spans[big].pageId, n, small))
  {
    var spans', pages' := Cut(spans, big, small, n), MapRange(pages, spans[big].pageId, n, small);
    CutSized(spans, big, small, n);
    forall r, p | r in spans' && Within(spans'[r], p) ensures p in pages' && pages'[p] == r {
      CutMaps(spans, pages, big, small, n, r, p);
    }
    forall p | p in pages' ensures pages'[p] in spans' && Within(spans'[pages'[p]], p) {
      CutOwns(spans, pages, big, small, n, p);
    }
  }

  lemma CutSized(spans: Spans, big: Ref, small: Ref, n: nat)
    requires Sized(spans) && big in spans && 1 <= n < spans[big].pageCount
    ensures Sized(Cut(spans, big, small, n))
  {}

  lemma CutMaps(spans: Spans, pages: Pages, big: Ref, small: Ref, n: nat, r: Ref, p: nat)
    requires Mapped(spans, pages) && big in spans && small !in spans && n <= spans[big].pageCount
    requires r in Cut(spans, big, small, n) && Within(Cut(spans, big, small, n)[r], p)
    ensures var pages' := MapRange(pages, spans[big].pageId, n, small); p in pages' && pages'[p] == r
  {
    hide MapRange, Mapped;
    MapRangeAt(pages, spans[big].pageId, n, small, p);
    if r != small {
      SpanMaps(spans, pages, r, p);
      if r != big && Within(spans[big], p) { SpanMaps(spans, pages, big, p); }
    }
  }

  lemma CutOwns(spans: Spans, pages: Pages, big: Ref, small: Ref, n: nat, p: nat)
    requires Owned(spans, pages) && big in spans && small !in spans && n <= spans[big].pageCount
    requires p in MapRange(pages, spans[big].pageId, n, small)
    ensures var r := MapRange(pages, spans[big].pageId, n, small)[p];
      r in Cut(spans, big, small, n) && Within(Cut(spans, big, small, n)[r], p)
  {
    hide MapRange, Owned;
    MapRangeAt(pages, spans[big].pageId, n, small, p);
    if p in pages { PageOwner(spans, pages, p); }
  }

  lemma CutLists(spans: Spans, lists: Lists, i: nat, small: Ref, n: nat)
    requires Sized(spans) && Listed(spans, lists, {}) && small !in spans && 1 <= n < i <= MAX_PAGES && lists[i] != []
    requires lists[i][0] in spans && spans[lists[i][0]].pageCount == i
    ensures var spans' := Cut(spans, lists[i][0], small, n);
      Sized(spans') && Listed(spans', lists[i := lists[i][1..]][i - n := lists[i - n] + [lists[i][0]]], {})
  {
    PoppedList(spans, lists, i);
    ListHead(spans, lists, {}, i);
    var big := lists[i][0];
    var popped := lists[i := lists[i][1..]];
    CutPopped(spans, popped, big, small, n);
    PushKeeps(Cut(spans, big, small, n), popped, big);
  }

  lemma CutPopped(spans: Spans, lists: Lists, big: Ref, small: Ref, n: nat)
    requires Sized(spans) && Listed(spans, lists, {big}) && big in spans && !spans[big].isUsed
    requires small !in spans && 1 <= n < spans[big].pageCount
    ensures Sized(Cut(spans, big, small, n)) && Listed(Cut(spans, big, small, n), lists, {big})
  {
    hide NoDups;
  }

  // A span of pages obtained from the system.
  function Obtained(spans: Spans, r: Ref, start: nat, n: nat): Spans {
    spans[r := Span(start, n, 0, 0, true)]
  }

  lemma ObtainTiles(spans: Spans, pages: Pages, r: Ref, start: nat, n: nat)
    requires Tiled(spans, pages) && r !in spans && 1 <= start && 1 <= n <= MAX_PAGES
    requires forall p :: start <= p < start + n ==> p !in pages
    ensures Tiled(Obtained(spans, r, start, n), MapRange(pages, start, n, r))
  {
    hide MapRange;
    var spans', pages' := Obtained(spans, r, start, n), MapRange(pages, start, n, r);
    forall q, p | q in spans' && Within(spans'[q], p) ensures p in pages' && pages'[p] == q {
      ObtainMaps(spans, pages, r, start, n, q, p);
    }
    forall p | p in pages' ensures pages'[p] in spans' && Within(spans'[pages'[p]], p) {
      ObtainOwns(spans, pages, r, start, n, p);
    }
  }

  lemma ObtainMaps(spans: Spans, pages: Pages, r: Ref, start: nat, n: nat, q: Ref, p: nat)
    requires Mapped(spans, pages) && r !in spans && (forall x :: start <= x < start + n ==> x !in pages)
    requires q in Obtained(spans, r, start, n) && Within(Obtained(spans, r, start, n)[q], p)
    ensures p in MapRange(pages, start, n, r) && MapRange(pages, start, n, r)[p] == q
  {
    hide MapRange, Mapped;
    MapRangeAt(pages, start, n, r, p);
    if q != r { SpanMaps(spans, pages, q, p); }
  }

  lemma ObtainOwns(spans: Spans, pages: Pages, r: Ref, start: nat, n: nat, p: nat)
    requires Owned(spans, pages) && r !in spans && p in MapRange(pages, start, n, r)
    ensures var q := MapRange(pages, start, n, r)[p];
      q in Obtained(spans, r, start, n) && Within(Obtained(spans, r, start, n)[q], p)
  {
    hide MapRange, Owned;
    MapRangeAt(pages, start, n, r, p);
    if p in pages { PageOwner(spans, pages, p); }
  }

  lemma ObtainLists(spans: Spans, lists: Lists, r: Ref, start: nat, n: nat)
    requires Sized(spans) && Listed(spans, lists, {}) && r !in spans && 1 <= start && 1 <= n <= MAX_PAGES
    ensures Sized(Obtained(spans, r, start, n)) && Listed(Obtained(spans, r, start, n), lists, {})
  {}

  // Taking a used span back; it is in no list yet.
  function Released(spans: Spans, r: Ref): Spans
    requires r in spans
  {
    spans[r := spans[r].(isUsed := false, freeCount := 0)]
  }

  lemma ReleaseTiles(spans: Spans, pages: Pages, r: Ref)
    requires Tiled(spans, pages) && r in spans
    ensures Tiled(Released(spans, r), pages)
  {
    hide Tiled;
    SameGeometry(spans, Released(spans, r), pages);
  }

  lemma ReleaseLists(spans: Spans, lists: Lists, r: Ref)
    requires Sized(spans) && Listed(spans, lists, {}) && r in spans && spans[r].isUsed
    ensures Sized(Released(spans, r)) && Listed(Released(spans, r), lists, {r})
  {
    hide NoDups;
  }

  // The left of two adjacent spans takes the pages of the right one, which is deleted.
  function Absorbed(spans: Spans, left: Ref, right: Ref): Spans
    requires left in spans && right in spans
  {
    spans[left := spans[left].(pageCount := spans[left].pageCount + spans[right].pageCount)] - {right}
  }

  predicate Adjacent(spans: Spans, left: Ref, right: Ref) {
    && left in spans && right in spans && left != right && !spans[left].isUsed && !spans[right].isUsed
    && spans[left].pageId + spans[left].pageCount == spans[right].pageId
    && spans[left].pageCount + spans[right].pageCount <= MAX_PAGES
  }

  lemma AbsorbTiles(spans: Spans, pages: Pages, left: Ref, right: Ref)
    requires Tiled(spans, pages) && Adjacent(spans, left, right)
    ensures Tiled(Absorbed(spans, left, right),
      MapRange(pages, spans[left].pageId, spans[left].pageCount + spans[right].pageCount, left))
  {
    var n := spans[left].pageCount + spans[right].pageCount;
    var spans', pages' := Absorbed(spans, left, right), MapRange(pages, spans[left].pageId, n, left);
    AbsorbSized(spans, left, right);
    forall r, p | r in spans' && Within(spans'[r], p) ensures p in pages' && pages'[p] == r {
      AbsorbMaps(spans, pages, left, right, r, p);
    }
    forall p | p in pages' ensures pages'[p] in spans' && Within(spans'[pages'[p]], p) {
      AbsorbOwns(spans, pages, left, right, p);
    }
  }

  lemma AbsorbSized(spans: Spans, left: Ref, right: Ref)
    requires Sized(spans) && Adjacent(spans, left, right)
    ensures Sized(Absorbed(spans, left, right))
  {}

  lemma AbsorbMaps(spans: Spans, pages: Pages, left: Ref, right: Ref, r: Ref, p: nat)
    requires Mapped(spans, pages) && Adjacent(spans, left, right)
    requires r in Absorbed(spans, left, right) && Within(Absorbed(spans, left, right)[r], p)
    ensures var pages' := MapRange(pages, spans[left].pageId, spans[left].pageCount + spans[right].pageCount, left);
      p in pages' && pages'[p] == r
  {
    hide MapRange, Mapped;
    MapRangeAt(pages, spans[left].pageId, spans[left].pageCount + spans[right].pageCount, left, p);
    if r != left {
      SpanMaps(spans, pages, r, p);
      if Within(spans[left], p) { SpanMaps(spans, pages, left, p); }
      if Within(spans[right], p) { SpanMaps(spans, pages, right, p); }
    }
  }

  lemma AbsorbOwns(spans: Spans, pages: Pages, left: Ref, right: Ref, p: nat)
    requires Owned(spans, pages) && Adjacent(spans, left, right)
    requires p in MapRange(pages, spans[left].pageId, spans[left].pageCount + spans[right].pageCount, left)
    ensures var r := MapRange(pages, spans[left].pageId, spans[left].pageCount + spans[right].pageCount, left)[p];
      r in Absorbed(spans, left, right) && Within(Absorbed(spans, left, right)[r], p)
  {
    hide MapRange, Owned;
    MapRangeAt(pages, spans[left].pageId, spans[left].pageCount + spans[right].pageCount, left, p);
    if p in pages { PageOwner(spans, pages, p); }
  }

  // Unlinking a listed span: it is outside the lists together with out.
  lemma Unlinked(spans: Spans, lists: Lists, out: Ref, listed: Ref)
    requires Sized(spans) && Listed(spans, lists, {out}) && listed in spans && listed != out
    ensures var n := spans[listed].pageCount; Listed(spans, lists[n := Without(lists[n], listed)], {out, listed})
  {
    hide Without;
    var n := spans[listed].pageCount;
    var lists' := lists[n := Without(lists[n], listed)];
    assert NoDup(lists[n]);
    WithoutNoDup(lists[n], listed);
    forall i, q | 0 <= i < |lists'| && q in lists'[i]
      ensures q in spans && q !in {out, listed} && !spans[q].isUsed && spans[q].pageCount == i
    {
      assert q in lists[i];
    }
  }

  // One of the two spans was outside the lists; the other is unlinked, and the left one stays outside.
  lemma AbsorbLists(spans: Spans, lists: Lists, left: Ref, right: Ref, out: Ref, listed: Ref)
    requires Sized(spans) && Listed(spans, lists, {out}) && Adjacent(spans, left, right)
    requires (out == left && listed == right) || (out == right && listed == left)
    ensures Sized(Absorbed(spans, left, right))
    ensures var n := spans[listed].pageCount;
      Listed(Absorbed(spans, left, right), lists[n := Without(lists[n], listed)], {left})
  {
    hide Without, NoDups;
    Unlinked(spans, lists, out, listed);
    assert {out, listed} == {left, right};
  }

  // Putting the span that is outside the lists into the list of its page count.
  lemma PushKeeps(spans: Spans, lists: Lists, r: Ref)
    requires Sized(spans) && Listed(spans, lists, {r}) && r in spans && !spans[r].isUsed
    ensures var n := spans[r].pageCount; Listed(spans, lists[n := lists[n] + [r]], {})
  {
    var n := spans[r].pageCount;
    assert NoDup(lists[n]);
    assert r !in lists[n];
  }
}
