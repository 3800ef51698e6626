// Sorting by a comparison, and the texts' byte order.
module Sorting {

  type Less<!T> = (T, T) -> bool

  function Insert<T>(s: seq<T>, x: T, less: Less<T>): (r: seq<T>)
    ensures multiset(r) == multiset(s) + multiset{x} && |r| == |s| + 1
  {
    if s == [] then [x]
    else if less(x, s[0]) then [x] + s
    else
      assert s == [s[0]] + s[1..];
      [s[0]] + Insert(s[1..], x, less)
  }

  // std::sort and ORDER BY, on keys without ties.
  function Sort<T>(s: seq<T>, less: Less<T>): (r: seq<T>)
    ensures multiset(r) == multiset(s) && |r| == |s|
  {
    if s == [] then []
    else
      assert s == s[..|s| - 1] + [s[|s| - 1]];
      Insert(Sort(s[..|s| - 1], less), s[|s| - 1], less)
  }

  ghost predicate Order<T(!new)>(less: Less<T>) {
    && (forall x :: !less(x, x))
    && (forall x, y, z :: less(x, y) && less(y, z) ==> less(x, z))
    && (forall x, y, z :: !less(x, y) && !less(y, z) ==> !less(x, z))
  }

  ghost predicate Sorted<T(!new)>(s: seq<T>, less: Less<T>) {
    forall i, j :: 0 <= i < j < |s| ==> !less(s[j], s[i])
  }

  lemma InsertMembers<T>(s: seq<T>, x: T, less: Less<T>, y: T)
    requires y in Insert(s, x, less)
    ensures y in s || y == x
  {
    assert y in multiset(Insert(s, x, less));
    assert y in multiset(s) + multiset{x};
  }

  lemma {:induction false} InsertSorted<T(!new)>(s: seq<T>, x: T, less: Less<T>)
    requires Order(less) && Sorted(s, less)
    ensures Sorted(Insert(s, x, less), less)
  {
    if s != [] {
      if less(x, s[0]) {
        FrontLeast([x] + s, less);
      } else {
        InsertSorted(s[1..], x, less);
        var r := Insert(s[1..], x, less);
        forall j | 0 <= j < |r| ensures !less(r[j], s[0]) {
          InsertMembers(s[1..], x, less, r[j]);
        }
        assert Insert(s, x, less) == [s[0]] + r;
      }
    }
  }

  lemma Chain<T(!new)>(less: Less<T>, x: T, y: T, z: T)
    requires Order(less)
    ensures less(x, y) && less(y, z) ==> less(x, z)
  {}

  lemma FrontLeast<T(!new)>(s: seq<T>, less: Less<T>)
    requires Order(less) && |s| >= 2 && less(s[0], s[1]) && Sorted(s[1..], less)
    ensures Sorted(s, less)
  {
    var t := s[1..];
    forall j | 0 < j < |s| ensures !less(s[j], s[0]) {
      assert s[j] == t[j - 1] && t[0] == s[1];
      if j > 1 { assert !less(t[j - 1], t[0]); }
      Chain(less, s[j], s[0], s[1]);
    }
    forall i, j | 0 <= i < j < |s| ensures !less(s[j], s[i]) {
      if i > 0 { assert s[i] == t[i - 1] && s[j] == t[j - 1]; }
    }
  }

  lemma {:induction false} SortSorted<T(!new)>(s: seq<T>, less: Less<T>)
    requires Order(less)
    ensures Sorted(Sort(s, less), less)
  {
    if s != [] {
      SortSorted(s[..|s| - 1], less);
      InsertSorted(Sort(s[..|s| - 1], less), s[|s| - 1], less);
    }
  }

  // Only equal elements are tied.
  ghost predicate NoTies<T(!new)>(s: seq<T>, less: Less<T>) {
    forall x, y :: x in s && y in s && !less(x, y) && !less(y, x) ==> x == y
  }

  lemma SameFront<T(!new)>(s: seq<T>, t: seq<T>, less: Less<T>)
    requires Sorted(s, less) && Sorted(t, less) && NoTies(s, less) && multiset(s) == multiset(t) && s != []
    ensures t != [] && s[0] == t[0]
  {
    assert s[0] in multiset(s) && s[0] in multiset(t);
    assert t[0] in multiset(t) && t[0] in multiset(s);
    var i :| 0 <= i < |t| && t[i] == s[0];
    var j :| 0 <= j < |s| && s[j] == t[0];
    if i > 0 && j > 0 { assert !less(t[i], t[0]) && !less(s[j], s[0]); }
  }

  lemma Rest<T>(s: seq<T>)
    requires s != []
    ensures multiset(s[1..]) == multiset(s) - multiset{s[0]}
  {
    assert s == [s[0]] + s[1..];
  }

  lemma SameSize<T>(s: seq<T>, t: seq<T>)
    requires multiset(s) == multiset(t)
    ensures |s| == |t|
  {
    assert |multiset(s)| == |s| && |multiset(t)| == |t|;
  }

  // Without ties there is one way to sort.
  lemma {:induction false} SortedOnce<T(!new)>(s: seq<T>, t: seq<T>, less: Less<T>)
    requires Sorted(s, less) && Sorted(t, less) && NoTies(s, less) && multiset(s) == multiset(t)
    ensures s == t
    decreases |s|
  {
    hide Sorted, NoTies;
    SameSize(s, t);
    if s != [] {
      SameFront(s, t, less);
      Rest(s);
      Rest(t);
      TailSorted(s, less);
      TailSorted(t, less);
      SortedOnce(s[1..], t[1..], less);
      FrontAndRest(s, t);
    }
  }

  lemma FrontAndRest<T>(s: seq<T>, t: seq<T>)
    requires s != [] && t != [] && s[0] == t[0] && s[1..] == t[1..]
    ensures s == t
  {
    assert s == [s[0]] + s[1..] && t == [t[0]] + t[1..];
  }

  lemma TailSorted<T(!new)>(s: seq<T>, less: Less<T>)
    requires Sorted(s, less) && s != []
    ensures Sorted(s[1..], less) && (NoTies(s, less) ==> NoTies(s[1..], less))
  {}

  // Sorting decides whether two sequences hold the same elements.
  lemma SortDecides<T(!new)>(s: seq<T>, t: seq<T>, less: Less<T>)
    requires Order(less) && NoTies(s, less)
    ensures Sort(s, less) == Sort(t, less) <==> multiset(s) == multiset(t)
  {
    SortSorted(s, less);
    SortSorted(t, less);
    var r := Sort(s, less);
    forall x | x in r ensures x in s { assert x in multiset(r) && x in multiset(s); }
    assert NoTies(r, less);
    if multiset(s) == multiset(t) { SortedOnce(r, Sort(t, less), less); }
  }

  // ---- the order of texts ----

  function TextLess(a: string, b: string): bool {
    b != [] && (a == [] || a[0] < b[0] || (a[0] == b[0] && TextLess(a[1..], b[1..])))
  }

  lemma {:induction false} TextIrreflexive(a: string)
    ensures !TextLess(a, a)
  {
    if a != [] { TextIrreflexive(a[1..]); }
  }

  lemma {:induction false} TextTransitive(a: string, b: string, c: string)
    ensures TextLess(a, b) && TextLess(b, c) ==> TextLess(a, c)
    decreases |a|
  {
    if a != [] && b != [] && c != [] { TextTransitive(a[1..], b[1..], c[1..]); }
  }

  lemma {:induction false} TextTotal(a: string, b: string)
    ensures !TextLess(a, b) && !TextLess(b, a) ==> a == b
    decreases |a|
  {
    if a != [] && b != [] {
      TextTotal(a[1..], b[1..]);
      if a[0] == b[0] && a[1..] == b[1..] { assert a == [a[0]] + a[1..] && b == [b[0]] + b[1..]; }
    }
  }

  lemma TextOrder()
    ensures Order(TextLess)
    ensures forall a, b :: !TextLess(a, b) && !TextLess(b, a) ==> a == b
  {
    forall x: string ensures !TextLess(x, x) { TextIrreflexive(x); }
    forall x: string, y: string, z: string | TextLess(x, y) && TextLess(y, z)
      ensures TextLess(x, z)
    {
      TextTransitive(x, y, z);
    }
    forall a: string, b: string | !TextLess(a, b) && !TextLess(b, a) ensures a == b { TextTotal(a, b); }
    forall x: string, y: string, z: string | !TextLess(x, y) && !TextLess(y, z) ensures !TextLess(x, z) {
      if TextLess(x, z) {
        if TextLess(y, x) { TextTransitive(y, x, z); }
      }
    }
  }
}
