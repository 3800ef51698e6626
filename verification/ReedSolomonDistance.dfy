// How far apart the code words of a block are, and how many wrong bytes they bear.
module ReedSolomonDistance {
  import opened GaloisField
  import opened ReedSolomon
  import opened ReedSolomonCode

  // ---- the places of a word ----

  // The power of 2 that belongs to place k of a word of length n; the last place has 1.
  function Locator(n: nat, k: nat): bv8
    requires k < n
  {
    Root(n - 1 - k)
  }

  // Every coefficient times its locator.
  function Located(p: Poly): (q: Poly)
    ensures |q| == |p|
  {
    seq(|p|, k requires 0 <= k < |p| => Times(p[k], Locator(|p|, k)))
  }

  // The value of the located word is that of the word at the next power.
  lemma {:induction false} EvalLocated(p: Poly, i: nat)
    ensures Eval(Located(p), Root(i)) == Eval(p, Root(i + 1))
  {
    hide Plus, Times, Eval, Root, Located;
    if p == [] {
      LocatedNothing();
      EvalEmpty(Root(i));
      EvalEmpty(Root(i + 1));
    } else {
      var n := |p| - 1;
      var u, c, x := p[..n], p[n], Root(i);
      EvalLocated(u, i);
      SplitLast(p);
      LocatedStep(u, c);
      EvalAppend(u, c, Root(i + 1));
      EvalAppend(ScalePoly(Located(u), 2), c, x);
      EvalScale(Located(u), 2, x);
      RootStep(i);
      Associative(Eval(u, Root(i + 1)), 2, x);
      Commutative(2, x);
    }
  }

  lemma LocatedNothing()
    ensures Located([]) == []
  {}

  lemma LocatedStep(u: Poly, c: bv8)
    ensures Located(u + [c]) == ScalePoly(Located(u), 2) + [c]
  {
    hide Times, Root;
    var p, n := u + [c], |u|;
    forall k | 0 <= k < n ensures Located(p)[k] == Times(Located(u)[k], 2) {
      RootStep(n - 1 - k);
      Associative(u[k], Root(n - 1 - k), 2);
    }
    RootStep(0);
    Units(c);
  }

  // ---- taking one place out ----

  // The word in which place a no longer counts: every coefficient times the distance of its locator from that of a.
  function Twisted(p: Poly, a: nat): (q: Poly)
    requires a < |p|
    ensures |q| == |p|
  {
    seq(|p|, k requires 0 <= k < |p| => Times(p[k], Plus(Locator(|p|, k), Locator(|p|, a))))
  }

  lemma TwistedIs(p: Poly, a: nat)
    requires a < |p|
    ensures Twisted(p, a) == Add(Located(p), ScalePoly(p, Locator(|p|, a)))
  {
    hide Plus, Times, Locator;
    forall k | 0 <= k < |p|
      ensures Twisted(p, a)[k] == Add(Located(p), ScalePoly(p, Locator(|p|, a)))[k]
    {
      var x, y := Locator(|p|, k), Locator(|p|, a);
      Distributive(p[k], x, y);
      Commutative(p[k], Plus(x, y)); Commutative(p[k], x); Commutative(p[k], y);
    }
  }

  lemma TwistedCodeword(p: Poly, a: nat, n: nat)
    requires a < |p| && IsCodeword(p, n + 1)
    ensures IsCodeword(Twisted(p, a), n)
  {
    hide Plus, Times, Eval, Root, Locator, Located, Twisted;
    TwistedIs(p, a);
    var y := Locator(|p|, a);
    forall i: nat | i < n ensures Eval(Twisted(p, a), Root(i)) == 0 {
      EvalAdd(Located(p), ScalePoly(p, y), Root(i));
      EvalLocated(p, i);
      EvalScale(p, y, Root(i));
      assert Eval(p, Root(i)) == 0 && Eval(p, Root(i + 1)) == 0;
      TimesZero(y);
      PlusLaws(0, 0, 0);
    }
  }

  lemma TwistedZero(p: Poly, a: nat, k: nat)
    requires a < |p| <= ORDER && k < |p|
    ensures Twisted(p, a)[k] == 0 <==> k == a || p[k] == 0
  {
    hide Plus, Times, Root;
    var x, y := Locator(|p|, k), Locator(|p|, a);
    if k == a {
      PlusLaws(x, x, 0);
      TimesZero(p[k]);
      Commutative(p[k], 0);
    } else {
      var i, j := |p| - 1 - k, |p| - 1 - a;
      if i < j { RootsDistinct(i, j); } else { RootsDistinct(j, i); }
      PlusLaws(x, y, 0);
      NoZeroDivisors(p[k], Plus(x, y));
      TimesZero(Plus(x, y));
    }
  }

  // ---- the weight of a code word ----

  // The number of nonzero coefficients.
  function Weight(p: Poly): (w: nat)
    ensures w <= |p|
  {
    if p == [] then 0 else Weight(p[..|p| - 1]) + if p[|p| - 1] != 0 then 1 else 0
  }

  // One nonzero coefficient less.
  lemma {:induction false} WeightLess(p: Poly, q: Poly, a: nat)
    requires |q| == |p| && a < |p| && p[a] != 0 && q[a] == 0
    requires forall k :: 0 <= k < |p| && k != a ==> (q[k] == 0 <==> p[k] == 0)
    ensures Weight(q) + 1 == Weight(p)
  {
    var n := |p| - 1;
    if a < n { WeightLess(p[..n], q[..n], a); } else { WeightSame(p[..n], q[..n]); }
  }

  lemma {:induction false} WeightSame(p: Poly, q: Poly)
    requires |q| == |p| && forall k :: 0 <= k < |p| ==> (q[k] == 0 <==> p[k] == 0)
    ensures Weight(q) == Weight(p)
  {
    if p != [] { WeightSame(p[..|p| - 1], q[..|p| - 1]); }
  }

  lemma {:induction false} WeightZero(p: Poly)
    ensures Weight(p) == 0 <==> forall k :: 0 <= k < |p| ==> p[k] == 0
  {
    if p != [] { WeightZero(p[..|p| - 1]); }
  }

  lemma NonzeroPlace(p: Poly) returns (a: nat)
    requires Weight(p) > 0
    ensures a < |p| && p[a] != 0
  {
    WeightZero(p);
    a :| a < |p| && p[a] != 0;
  }

  // The value at 1 of a word with one nonzero coefficient.
  lemma {:induction false} LonelyValue(p: Poly, a: nat)
    requires a < |p| && forall k :: 0 <= k < |p| && k != a ==> p[k] == 0
    ensures Eval(p, Root(0)) == p[a]
  {
    hide Plus, Times, Eval, Root;
    RootStep(0);
    var n := |p| - 1;
    SplitLast(p);
    EvalAppend(p[..n], p[n], 1);
    if a < n {
      LonelyValue(p[..n], a);
      Units(p[a]);
      PlusLaws(p[a], 0, 0);
    } else {
      AllZero(p[..n]);
      EvalLeadingZeros(n, [], 1);
      assert Zeros(n) + [] == p[..n];
      EvalEmpty(1);
      TimesZero(1);
      PlusLaws(p[n], 0, 0);
    }
  }

  lemma AllZero(p: Poly)
    requires forall k :: 0 <= k < |p| ==> p[k] == 0
    ensures p == Zeros(|p|)
  {}

  // No code word of degree n but zero has n or fewer nonzero bytes.
  lemma {:induction false} CodewordWeight(p: Poly, n: nat)
    requires |p| <= ORDER && IsCodeword(p, n) && Weight(p) <= n
    ensures p == Zeros(|p|)
    decreases n
  {
    hide Plus, Times, Eval, Root, Twisted, Weight;
    if Weight(p) == 0 {
      WeightZero(p);
      AllZero(p);
    } else {
      var a := NonzeroPlace(p);
      var q := Twisted(p, a);
      TwistedCodeword(p, a, n - 1);
      forall k | 0 <= k < |p| ensures q[k] == 0 <==> k == a || p[k] == 0 { TwistedZero(p, a, k); }
      WeightLess(p, q, a);
      CodewordWeight(q, n - 1);
      assert Eval(p, Root(0)) == 0;
      LonelyValue(p, a);
      assert false;
    }
  }

  // ---- the distance of code words ----

  // The number of places where two words differ.
  function Differing(p: Poly, q: Poly): nat
    requires |p| == |q|
  {
    if p == [] then 0
    else Differing(p[..|p| - 1], q[..|p| - 1]) + if p[|p| - 1] != q[|p| - 1] then 1 else 0
  }

  lemma {:induction false} DifferingIsWeight(p: Poly, q: Poly)
    requires |p| == |q|
    ensures Differing(p, q) == Weight(Add(p, q))
  {
    hide Plus;
    if p != [] {
      var n := |p| - 1;
      DifferingIsWeight(p[..n], q[..n]);
      assert Add(p, q)[..n] == Add(p[..n], q[..n]);
      PlusLaws(p[n], q[n], 0);
    }
  }

  lemma {:induction false} DifferingTriangle(p: Poly, q: Poly, r: Poly)
    requires |p| == |q| == |r|
    ensures Differing(p, q) <= Differing(r, p) + Differing(r, q)
  {
    if p != [] {
      var n := |p| - 1;
      DifferingTriangle(p[..n], q[..n], r[..n]);
    }
  }

  // Two code words of one block differ in more bytes than there are check bytes.
  lemma MinimumDistance(p: Poly, q: Poly, n: nat)
    requires |p| == |q| <= ORDER && IsCodeword(p, n) && IsCodeword(q, n) && p != q
    ensures Differing(p, q) > n
  {
    hide Plus, Eval, Root, Weight, Differing;
    if Differing(p, q) <= n {
      DifferingIsWeight(p, q);
      forall i: nat | i < n ensures Eval(Add(p, q), Root(i)) == 0 {
        EvalAdd(p, q, Root(i));
        assert Eval(p, Root(i)) == 0 && Eval(q, Root(i)) == 0;
        PlusLaws(0, 0, 0);
      }
      CodewordWeight(Add(p, q), n);
      forall k | 0 <= k < |p| ensures p[k] == q[k] {
        assert Add(p, q)[k] == 0;
        PlusLaws(p[k], q[k], 0);
      }
    }
  }

  // The data of a block with its check bytes.
  function WordOf(data: seq<bv8>, n: nat): (word: Poly)
    requires 1 <= n
    ensures |word| == |data| + n
  {
    data + Remainder(data, Generator(n)[1..])
  }

  // Whatever was read in place of a block, at most one data is within half as many bytes as there are check bytes.
  lemma DataDetermined(word: Poly, data: seq<bv8>, other: seq<bv8>, n: nat)
    requires 1 <= n && |data| == |other| && |word| == |data| + n <= ORDER
    requires 2 * Differing(word, WordOf(data, n)) <= n && 2 * Differing(word, WordOf(other, n)) <= n
    ensures data == other
  {
    hide Differing, Remainder, Generator;
    var p, q := WordOf(data, n), WordOf(other, n);
    RemainderCompletesCodeword(data, n);
    RemainderCompletesCodeword(other, n);
    if p != q {
      MinimumDistance(p, q, n);
      DifferingTriangle(p, q, word);
    }
    assert p[..|data|] == data && q[..|data|] == other;
  }
}
