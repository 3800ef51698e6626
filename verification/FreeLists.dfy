// Where the nodes are: every free node is in exactly one list, every other node is in a caller's hands.
module FreeLists {
  import opened PageSpans

  // The heads of intrusive lists: a span's free_list, a thread's free_lists_ entry, the chain that a thread is
  // carrying between a locked section and its own lists. Hands is no list.
  datatype Key = SpanKey(r: Ref) | CacheKey(t: nat, i: nat) | FlightKey(t: nat) | Hands

  type Heads = map<Key, seq<Addr>>

  // The span of a node and the place it is at.
  datatype Slot = Slot(home: Ref, at: Key)

  type Slots = map<Addr, Slot>

  function At(lists: Heads, k: Key): seq<Addr> {
    if k in lists then lists[k] else []
  }

  ghost predicate InPlace(lists: Heads, slots: Slots) {
    forall k: Key, b: Addr {:trigger b in At(lists, k)} ::
      b in At(lists, k) ==> b in slots && slots[b].at == k && k != Hands
  }

  ghost predicate Present(lists: Heads, slots: Slots) {
    forall b: Addr :: b in slots && slots[b].at != Hands ==> b in At(lists, slots[b].at)
  }

  ghost predicate Distinct(lists: Heads) {
    forall k: Key :: NoDup(At(lists, k))
  }

  ghost predicate Filed(lists: Heads, slots: Slots) {
    InPlace(lists, slots) && Present(lists, slots) && Distinct(lists)
  }

  lemma PlaceOf(lists: Heads, slots: Slots, k: Key, b: Addr)
    requires InPlace(lists, slots)
    ensures b in At(lists, k) ==> b in slots && slots[b].at == k && k != Hands
  {}

  // ---- a chain moves from the front of one list to the front of another ----

  function Moved(lists: Heads, from: Key, to: Key, n: nat): Heads
    requires n <= |At(lists, from)|
  {
    lists[from := At(lists, from)[n..]][to := At(lists, from)[..n] + At(lists, to)]
  }

  function Relabelled(slots: Slots, s: seq<Addr>, to: Key): Slots {
    map b | b in slots :: if b in s then slots[b].(at := to) else slots[b]
  }

  lemma MovedAt(lists: Heads, from: Key, to: Key, n: nat, k: Key)
    requires n <= |At(lists, from)| && from != to
    ensures At(Moved(lists, from, to, n), k)
      == if k == to then At(lists, from)[..n] + At(lists, to) else if k == from then At(lists, from)[n..]
        else At(lists, k)
  {}

  lemma PrefixApart(s: seq<Addr>, n: nat)
    requires NoDup(s) && n <= |s|
    ensures forall b: Addr :: b in s[..n] ==> b !in s[n..]
    ensures forall b: Addr :: b in s ==> b in s[..n] || b in s[n..]
  {
    forall b: Addr | b in s ensures b in s[..n] || b in s[n..] {
      var i :| 0 <= i < |s| && s[i] == b;
      if i < n { assert s[..n][i] == b; } else { assert s[n..][i - n] == b; }
    }
  }

  lemma MovePlaces(lists: Heads, slots: Slots, from: Key, to: Key, n: nat, k: Key, b: Addr)
    requires Filed(lists, slots) && n <= |At(lists, from)| && from != to && to != Hands
    requires b in At(Moved(lists, from, to, n), k)
    ensures var slots' := Relabelled(slots, At(lists, from)[..n], to); b in slots' && slots'[b].at == k && k != Hands
  {
    hide At, Moved, NoDup, InPlace, Present;
    MovedAt(lists, from, to, n, k);
    var s := At(lists, from);
    assert NoDup(s);
    PrefixIn(s, n, b);
    PlaceOf(lists, slots, from, b);
    PlaceOf(lists, slots, to, b);
    PlaceOf(lists, slots, k, b);
    if k == to {
      assert b in s[..n] || b in At(lists, to);
    }
  }

  lemma PrefixIn(s: seq<Addr>, n: nat, b: Addr)
    requires NoDup(s) && n <= |s|
    ensures b in s <==> b in s[..n] || b in s[n..]
    ensures !(b in s[..n] && b in s[n..])
  {
    PrefixApart(s, n);
    if b in s[..n] { assert b in s; }
    if b in s[n..] { assert b in s; }
  }

  lemma MovePresent(lists: Heads, slots: Slots, from: Key, to: Key, n: nat, b: Addr)
    requires Filed(lists, slots) && n <= |At(lists, from)| && from != to && to != Hands
    requires b in slots && Relabelled(slots, At(lists, from)[..n], to)[b].at != Hands
    ensures b in At(Moved(lists, from, to, n), Relabelled(slots, At(lists, from)[..n], to)[b].at)
  {
    hide At, Moved, NoDup, InPlace;
    var k := Relabelled(slots, At(lists, from)[..n], to)[b].at;
    MovedAt(lists, from, to, n, k);
    PrefixApart(At(lists, from), n);
  }

  lemma MoveDistinct(lists: Heads, slots: Slots, from: Key, to: Key, n: nat, k: Key)
    requires Filed(lists, slots) && n <= |At(lists, from)| && from != to
    ensures NoDup(At(Moved(lists, from, to, n), k))
  {
    hide At, Moved, Present;
    MovedAt(lists, from, to, n, k);
    var s, t := At(lists, from), At(lists, to);
    assert NoDup(s) && NoDup(t) && NoDup(At(lists, k));
    forall b: Addr | b in s[..n] ensures b !in t {
      assert b in At(lists, from);
      assert slots[b].at == from;
      PlaceOf(lists, slots, to, b);
    }
    if k == to { JoinNoDup(s[..n], t); }
  }

  lemma OneNoDup(b: Addr)
    ensures NoDup([b])
  {}

  lemma JoinNoDup(s: seq<Addr>, t: seq<Addr>)
    requires NoDup(s) && NoDup(t) && forall b: Addr :: b in s ==> b !in t
    ensures NoDup(s + t)
  {
    forall i, j | 0 <= i < j < |s + t| ensures (s + t)[i] != (s + t)[j] {
      if i < |s| <= j { assert s[i] in s && t[j - |s|] in t; }
    }
  }

  lemma MoveFiles(lists: Heads, slots: Slots, from: Key, to: Key, n: nat)
    requires Filed(lists, slots) && n <= |At(lists, from)| && from != to && to != Hands
    ensures Filed(Moved(lists, from, to, n), Relabelled(slots, At(lists, from)[..n], to))
  {
    hide At, Moved, Filed;
    var lists', slots' := Moved(lists, from, to, n), Relabelled(slots, At(lists, from)[..n], to);
    forall k: Key, b: Addr | b in At(lists', k) ensures b in slots' && slots'[b].at == k && k != Hands {
      MovePlaces(lists, slots, from, to, n, k, b);
    }
    forall b: Addr | b in slots' && slots'[b].at != Hands ensures b in At(lists', slots'[b].at) {
      MovePresent(lists, slots, from, to, n, b);
    }
    forall k: Key ensures NoDup(At(lists', k)) {
      MoveDistinct(lists, slots, from, to, n, k);
    }
    FiledBy(lists', slots');
  }

  lemma FiledBy(lists: Heads, slots: Slots)
    requires forall k: Key, b: Addr {:trigger b in At(lists, k)} ::
      b in At(lists, k) ==> b in slots && slots[b].at == k && k != Hands
    requires forall b: Addr :: b in slots && slots[b].at != Hands ==> b in At(lists, slots[b].at)
    requires forall k: Key :: NoDup(At(lists, k))
    ensures Filed(lists, slots)
  {
    hide At;
  }

  // ---- one node leaves a list for a caller, or comes back ----

  function Popped(lists: Heads, from: Key): Heads
    requires At(lists, from) != []
  {
    lists[from := At(lists, from)[1..]]
  }

  function Pushed(lists: Heads, to: Key, b: Addr): Heads {
    lists[to := [b] + At(lists, to)]
  }

  function Relabel(slots: Slots, b: Addr, to: Key): Slots
    requires b in slots
  {
    slots[b := slots[b].(at := to)]
  }

  lemma PopFiles(lists: Heads, slots: Slots, from: Key)
    requires Filed(lists, slots) && At(lists, from) != []
    ensures At(lists, from)[0] in slots && Filed(Popped(lists, from), Relabel(slots, At(lists, from)[0], Hands))
  {
    hide At, Popped;
    var b := At(lists, from)[0];
    assert b in At(lists, from);
    PlaceOf(lists, slots, from, b);
    var lists', slots' := Popped(lists, from), Relabel(slots, b, Hands);
    forall k: Key, c: Addr | c in At(lists', k) ensures c in slots' && slots'[c].at == k && k != Hands {
      PoppedAt(lists, slots, from, k, c);
      PlaceOf(lists, slots, k, c);
    }
    forall c: Addr | c in slots' && slots'[c].at != Hands ensures c in At(lists', slots'[c].at) {
      PoppedAt(lists, slots, from, slots[c].at, c);
    }
    forall k: Key ensures NoDup(At(lists', k)) { PoppedDistinct(lists, from, k); }
    hide *;
    FiledBy(lists', slots');
  }

  lemma PoppedAt(lists: Heads, slots: Slots, from: Key, k: Key, c: Addr)
    requires Filed(lists, slots) && At(lists, from) != []
    ensures c in At(Popped(lists, from), k) <==> c in At(lists, k) && c != At(lists, from)[0]
  {
    hide InPlace, Present, NoDup;
    var s := At(lists, from);
    assert NoDup(s);
    HeadApart(s, c);
    assert At(Popped(lists, from), from) == s[1..];
    assert k != from ==> At(Popped(lists, from), k) == At(lists, k);
    if k != from && c == s[0] {
      PlaceOf(lists, slots, from, c);
      PlaceOf(lists, slots, k, c);
    }
  }

  lemma HeadApart(s: seq<Addr>, c: Addr)
    requires NoDup(s) && s != []
    ensures s[0] in s && (c in s[1..] <==> c in s && c != s[0])
  {
    assert s == [s[0]] + s[1..];
    if c in s[1..] {
      var i :| 0 <= i < |s[1..]| && s[1..][i] == c;
      assert s[i + 1] == c;
    }
  }

  lemma PoppedDistinct(lists: Heads, from: Key, k: Key)
    requires Distinct(lists) && At(lists, from) != []
    ensures NoDup(At(Popped(lists, from), k))
  {
    assert NoDup(At(lists, k));
  }

  lemma PushFiles(lists: Heads, slots: Slots, to: Key, b: Addr)
    requires Filed(lists, slots) && to != Hands && b in slots && slots[b].at == Hands
    ensures Filed(Pushed(lists, to, b), Relabel(slots, b, to))
  {
    hide At, Pushed;
    var lists', slots' := Pushed(lists, to, b), Relabel(slots, b, to);
    forall k: Key, c: Addr | c in At(lists', k) ensures c in slots' && slots'[c].at == k && k != Hands {
      PushedAt(lists, to, b, k, c);
      PlaceOf(lists, slots, k, c);
    }
    forall c: Addr | c in slots' && slots'[c].at != Hands ensures c in At(lists', slots'[c].at) {
      PushedAt(lists, to, b, slots'[c].at, c);
    }
    forall k: Key ensures NoDup(At(lists', k)) { PushedDistinct(lists, slots, to, b, k); }
    hide *;
    FiledBy(lists', slots');
  }

  lemma PushedAt(lists: Heads, to: Key, b: Addr, k: Key, c: Addr)
    ensures c in At(Pushed(lists, to, b), k) <==> c in At(lists, k) || (c == b && k == to)
  {}

  lemma PushedDistinct(lists: Heads, slots: Slots, to: Key, b: Addr, k: Key)
    requires Filed(lists, slots) && b in slots && slots[b].at == Hands
    ensures NoDup(At(Pushed(lists, to, b), k))
  {
    hide Present, InPlace, NoDup;
    assert NoDup(At(lists, k));
    PlaceOf(lists, slots, to, b);
    assert k != to ==> At(Pushed(lists, to, b), k) == At(lists, k);
    if k == to {
      OneNoDup(b);
      JoinNoDup([b], At(lists, k));
      assert At(Pushed(lists, to, b), k) == [b] + At(lists, k);
    }
  }

  // ---- a new span's nodes, and a span that is given up ----

  function Added(slots: Slots, r: Ref, s: seq<Addr>): Slots {
    slots + map b | b in s :: Slot(r, SpanKey(r))
  }

  function WithSpan(lists: Heads, r: Ref, s: seq<Addr>): Heads {
    lists[SpanKey(r) := s]
  }

  lemma AddedAt(lists: Heads, slots: Slots, r: Ref, s: seq<Addr>, k: Key, b: Addr)
    requires InPlace(lists, slots) && forall c: Addr :: c in s ==> c !in slots
    requires b in At(WithSpan(lists, r, s), k)
    ensures b in Added(slots, r, s) && Added(slots, r, s)[b].at == k && k != Hands
  {
    PlaceOf(lists, slots, k, b);
    assert At(WithSpan(lists, r, s), k) == if k == SpanKey(r) then s else At(lists, k);
  }

  lemma AddFiles(lists: Heads, slots: Slots, r: Ref, s: seq<Addr>)
    requires Filed(lists, slots) && NoDup(s) && forall b: Addr :: b in s ==> b !in slots
    requires At(lists, SpanKey(r)) == []
    ensures Filed(WithSpan(lists, r, s), Added(slots, r, s))
  {
    var lists', slots' := WithSpan(lists, r, s), Added(slots, r, s);
    assert InPlace(lists', slots') by {
      forall k: Key, b: Addr | b in At(lists', k) ensures b in slots' && slots'[b].at == k && k != Hands {
        AddedAt(lists, slots, r, s, k, b);
      }
    }
    assert Present(lists', slots') by {
      forall b: Addr | b in slots' && slots'[b].at != Hands ensures b in At(lists', slots'[b].at) {
        if b !in s { assert b in At(lists, slots[b].at); }
      }
    }
    forall k: Key ensures NoDup(At(lists', k)) {
      assert NoDup(At(lists, k));
    }
  }

  function Dropped(slots: Slots, s: seq<Addr>): Slots {
    map b | b in slots && b !in s :: slots[b]
  }

  lemma DropFiles(lists: Heads, slots: Slots, r: Ref)
    requires Filed(lists, slots)
    ensures Filed(lists - {SpanKey(r)}, Dropped(slots, At(lists, SpanKey(r))))
  {
    var s := At(lists, SpanKey(r));
    var lists', slots' := lists - {SpanKey(r)}, Dropped(slots, s);
    forall k: Key, b: Addr | b in At(lists', k) ensures b in slots' && slots'[b].at == k && k != Hands {
      PlaceOf(lists, slots, k, b);
      PlaceOf(lists, slots, SpanKey(r), b);
      assert At(lists', k) == if k == SpanKey(r) then [] else At(lists, k);
    }
    forall b: Addr | b in slots' && slots'[b].at != Hands ensures b in At(lists', slots'[b].at) {
      assert b in At(lists, slots[b].at);
    }
    forall k: Key ensures NoDup(At(lists', k)) {
      assert NoDup(At(lists, k));
    }
  }
}
