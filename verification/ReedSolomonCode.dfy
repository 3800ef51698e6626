// What the generator and the remainder mean: data followed by its remainder is the only
// codeword with that data.
module ReedSolomonCode {
  import opened GaloisField
  import opened ReedSolomon
  import Arithmetic

  // ---- evaluation is linear ----

  lemma EvalAppend(p: Poly, c: bv8, x: bv8)
    ensures Eval(p + [c], x) == Plus(Times(Eval(p, x), x), c)
  {
    hide Plus, Times;
    assert (p + [c])[..|p|] == p;
  }

  lemma EvalEmpty(x: bv8)
    ensures Eval([], x) == 0
  {}

  lemma SplitLast(p: Poly)
    requires p != []
    ensures p == p[..|p| - 1] + [p[|p| - 1]]
  {}

  lemma {:induction false} EvalAdd(p: Poly, q: Poly, x: bv8)
    requires |p| == |q|
    ensures Eval(Add(p, q), x) == Plus(Eval(p, x), Eval(q, x))
  {
    hide Plus, Times, Eval;
    if p == [] {
      EvalEmpty(x);
      PlusLaws(0, 0, 0);
      assert Add(p, q) == [];
    } else {
      var n := |p| - 1;
      var u, v := p[..n], q[..n];
      EvalAdd(u, v, x);
      SplitLast(p); SplitLast(q);
      EvalAppend(u, p[n], x); EvalAppend(v, q[n], x);
      assert Add(p, q) == Add(u, v) + [Plus(p[n], q[n])];
      EvalAppend(Add(u, v), Plus(p[n], q[n]), x);
      Distributive(x, Eval(u, x), Eval(v, x));
      PlusSwap(Times(Eval(u, x), x), Times(Eval(v, x), x), p[n], q[n]);
    }
  }

  lemma {:induction false} EvalScale(p: Poly, f: bv8, x: bv8)
    ensures Eval(ScalePoly(p, f), x) == Times(Eval(p, x), f)
  {
    hide Plus, Times, Eval;
    if p == [] {
      EvalEmpty(x);
      TimesZero(f);
      assert ScalePoly(p, f) == [];
    } else {
      var n := |p| - 1;
      var u := p[..n];
      EvalScale(u, f, x);
      SplitLast(p);
      EvalAppend(u, p[n], x);
      assert ScalePoly(p, f) == ScalePoly(u, f) + [Times(p[n], f)];
      EvalAppend(ScalePoly(u, f), Times(p[n], f), x);
      Distributive(f, Times(Eval(u, x), x), p[n]);
      Associative(Eval(u, x), x, f); Commutative(x, f); Associative(Eval(u, x), f, x);
    }
  }

  lemma {:induction false} EvalLeadingZeros(n: nat, p: Poly, x: bv8)
    ensures Eval(Zeros(n) + p, x) == Eval(p, x)
  {
    hide Plus, Times, Eval;
    if p != [] {
      var m := |p| - 1;
      EvalLeadingZeros(n, p[..m], x);
      SplitLast(p);
      EvalAppend(p[..m], p[m], x);
      assert Zeros(n) + p == (Zeros(n) + p[..m]) + [p[m]];
      EvalAppend(Zeros(n) + p[..m], p[m], x);
    } else if n > 0 {
      EvalLeadingZeros(n - 1, [], x);
      assert Zeros(n) + [] == (Zeros(n - 1) + []) + [0];
      EvalAppend(Zeros(n - 1) + [], 0, x);
      EvalEmpty(x);
      TimesZero(x);
      PlusLaws(0, 0, 0);
    } else {
      assert Zeros(n) + p == p;
    }
  }

  // ---- the generator ----

  lemma MulRootSplit(p: Poly, r: bv8)
    requires p != []
    ensures var n := |p| - 1; var m := MulRoot(p[..n], r);
      MulRoot(p, r) == (m[..n] + [Plus(m[n], p[n])]) + [Times(p[n], r)]
  {
    hide Plus, Times, MulRoot;
    var n := |p| - 1;
    var m, q := MulRoot(p[..n], r), MulRoot(p, r);
    var s := (m[..n] + [Plus(m[n], p[n])]) + [Times(p[n], r)];
    forall j | 0 <= j <= n + 1 ensures q[j] == s[j] {
      MulRootTerm(p, r, j);
      if j <= n { MulRootTerm(p[..n], r, j); }
      SplitTerm(p, r, j);
    }
  }

  function Term(p: Poly, r: bv8, j: nat): bv8
    requires j <= |p|
  {
    Plus(if j < |p| then p[j] else 0, if j > 0 then Times(p[j - 1], r) else 0)
  }

  lemma MulRootTerm(p: Poly, r: bv8, j: nat)
    requires j <= |p|
    ensures MulRoot(p, r)[j] == Term(p, r, j)
  {
    hide Plus, Times;
  }

  lemma SplitTerm(p: Poly, r: bv8, j: nat)
    requires p != [] && j <= |p|
    ensures var n := |p| - 1;
      Term(p, r, j) == if j < n then Term(p[..n], r, j) else if j == n then Plus(Term(p[..n], r, j), p[n])
        else Times(p[n], r)
  {
    hide Plus, Times;
    var n := |p| - 1;
    var t := if j > 0 then Times(p[j - 1], r) else 0;
    PlusLaws(0, t, 0);
    PlusLaws(t, p[n], 0);
  }

  lemma {:induction false} EvalMulRoot(p: Poly, r: bv8, x: bv8)
    ensures Eval(MulRoot(p, r), x) == Times(Eval(p, x), Plus(x, r))
  {
    hide Plus, Times, Eval;
    if p == [] {
      PlusLaws(0, 0, 0);
      assert MulRoot(p, r) == [] + [0];
      EvalAppend([], 0, x);
      EvalEmpty(x);
      TimesZero(x);
      TimesZero(Plus(x, r));
    } else {
      var n := |p| - 1;
      var q, c := p[..n], p[n];
      var m := MulRoot(q, r);
      var e, s := Eval(q, x), Plus(x, r);
      EvalMulRoot(q, r, x);
      MulRootSplit(p, r);
      hide MulRoot;
      SplitLast(p);
      EvalAppend(q, c, x);
      assert m == m[..n] + [m[n]];
      EvalAppend(m[..n], m[n], x);
      EvalAppend(m[..n], Plus(m[n], c), x);
      PlusLaws(Times(Eval(m[..n], x), x), m[n], c);
      var low := m[..n] + [Plus(m[n], c)];
      assert Eval(low, x) == Plus(Times(e, s), c);
      EvalAppend(low, Times(c, r), x);
      ProductStep(e, c, x, r);
    }
  }

  // (e s + c) x + c r == (e x + c) s  where s == x + r
  lemma ProductStep(e: bv8, c: bv8, x: bv8, r: bv8)
    ensures var s := Plus(x, r);
      Plus(Times(Plus(Times(e, s), c), x), Times(c, r)) == Times(Plus(Times(e, x), c), s)
  {
    hide *;
    var s := Plus(x, r);
    Distributive(x, Times(e, s), c);
    Associative(e, s, x); Commutative(s, x); Associative(e, x, s);
    Distributive(c, x, r);
    PlusLaws(Times(Times(e, x), s), Times(c, x), Times(c, r));
    Distributive(s, Times(e, x), c);
  }

  // The divisor is the product of the (x - r^i), leading coefficient 1.
  lemma {:induction false} GeneratorIsProduct(n: nat, x: bv8)
    ensures Eval(Generator(n), x) == RootProduct(n, x)
    ensures Generator(n)[0] == 1
  {
    hide Plus, Times, Eval, MulRoot, Root;
    if n == 0 {
      assert Generator(n) == [] + [1];
      EvalAppend([], 1, x);
      EvalEmpty(x);
      TimesZero(x);
      PlusLaws(1, 0, 0);
      PlusLaws(0, 1, 0);
    } else {
      GeneratorIsProduct(n - 1, x);
      EvalMulRoot(Generator(n - 1), Root(n - 1), x);
      MulRootHead(Generator(n - 1), Root(n - 1));
    }
  }

  lemma MulRootHead(p: Poly, r: bv8)
    requires p != []
    ensures MulRoot(p, r)[0] == p[0]
  {
    hide Plus, Times;
    PlusLaws(p[0], 0, 0);
  }

  lemma {:induction false} RootProductVanishes(n: nat, i: nat)
    requires i < n
    ensures RootProduct(n, Root(i)) == 0
  {
    hide Plus, Times, Root;
    var x := Root(i);
    PlusLaws(x, Root(n - 1), 0);
    if i == n - 1 {
      TimesZero(RootProduct(n - 1, x));
    } else {
      RootProductVanishes(n - 1, i);
      TimesZero(Plus(x, Root(n - 1)));
    }
  }

  // ---- the remainder ----

  // data * x^n + remainder == quotient * generator, at every point.
  lemma {:induction false} DivisionIdentity(data: seq<bv8>, g: Poly, x: bv8)
    requires |g| > 0
    ensures Eval(data + Remainder(data, g), x) == Times(Eval(Quotient(data, g), x), Eval([1] + g, x))
  {
    hide Plus, Times, Eval, DivideStep;
    if data == [] {
      EvalLeadingZeros(|g|, [], x);
      assert Zeros(|g|) + [] == data + Remainder(data, g);
      EvalEmpty(x);
      TimesZero(Eval([1] + g, x));
    } else {
      var m := |data| - 1;
      var d, c := data[..m], data[m];
      DivisionIdentity(d, g, x);
      SplitLast(data);
      var r := Remainder(d, g);
      var f := Plus(c, r[0]);
      EvalAppend(Quotient(d, g), f, x);
      DivisionStep(d, c, r, g, x);
      Distributive(Eval([1] + g, x), Times(Eval(Quotient(d, g), x), x), f);
      hide Remainder, Quotient;
      var e, q := Eval([1] + g, x), Eval(Quotient(d, g), x);
      Associative(q, e, x); Commutative(e, x); Associative(q, x, e);
      Commutative(e, f);
      assert Quotient(data, g) == Quotient(d, g) + [f] by { QuotientStep(data, g); }
      assert data + Remainder(data, g) == d + [c] + DivideStep(r, g, c) by { RemainderUnfold(data, g); }
    }
  }

  lemma QuotientStep(data: seq<bv8>, g: Poly)
    requires |g| > 0 && data != []
    ensures var d := data[..|data| - 1];
      Quotient(data, g) == Quotient(d, g) + [Plus(data[|data| - 1], Remainder(d, g)[0])]
  {
    hide Plus, Remainder;
  }

  lemma RemainderUnfold(data: seq<bv8>, g: Poly)
    requires |g| > 0 && data != []
    ensures Remainder(data, g) == DivideStep(Remainder(data[..|data| - 1], g), g, data[|data| - 1])
  {
    hide DivideStep;
  }

  // One register step multiplies the word by x and adds f times the generator.
  lemma DivisionStep(d: seq<bv8>, c: bv8, r: Poly, g: Poly, x: bv8)
    requires |r| == |g| > 0
    ensures var f := Plus(c, r[0]);
      Eval(d + [c] + DivideStep(r, g, c), x) == Plus(Times(Eval(d + r, x), x), Times(Eval([1] + g, x), f))
  {
    hide Plus, Times, Eval, DivideStep;
    var f := Plus(c, r[0]);
    var shifted := d + r + [0];
    var added := Zeros(|d|) + ScalePoly([1] + g, f);
    assert d + [c] + DivideStep(r, g, c) == Add(shifted, added) by {
      StepAsSum(d, c, r, g);
    }
    EvalAdd(shifted, added, x);
    EvalAppend(d + r, 0, x);
    PlusLaws(Times(Eval(d + r, x), x), 0, 0);
    EvalLeadingZeros(|d|, ScalePoly([1] + g, f), x);
    EvalScale([1] + g, f, x);
  }

  lemma StepAsSum(d: seq<bv8>, c: bv8, r: Poly, g: Poly)
    requires |r| == |g| > 0
    ensures d + [c] + DivideStep(r, g, c)
      == Add(d + r + [0], Zeros(|d|) + ScalePoly([1] + g, Plus(c, r[0])))
  {
    hide Plus, Times;
    var f := Plus(c, r[0]);
    var left := d + [c] + DivideStep(r, g, c);
    var right := Add(d + r + [0], Zeros(|d|) + ScalePoly([1] + g, f));
    forall k | 0 <= k < |left|
      ensures left[k] == right[k]
    {
      if k < |d| {
        PlusLaws(d[k], 0, 0);
      } else if k == |d| {
        TimesOne(f);
        PlusCancel(c, r[0]);
        assert right[k] == Plus((d + r + [0])[k], Times(([1] + g)[0], f));
      } else {
        assert right[k] == Plus((d + r + [0])[k], Times(g[k - |d| - 1], f));
      }
    }
  }

  // ---- codewords ----

  // For every data and every degree the data followed by its remainder vanishes at every root.
  lemma RemainderCompletesCodeword(data: seq<bv8>, n: nat)
    requires 1 <= n
    ensures IsCodeword(data + Remainder(data, Generator(n)[1..]), n)
  {
    hide Eval, Root, Remainder, Generator;
    var g := Generator(n)[1..];
    forall i: nat | i < n
      ensures Eval(data + Remainder(data, g), Root(i)) == 0
    {
      hide *;
      var x := Root(i);
      GeneratorIsProduct(n, x);
      assert Generator(n) == [1] + g;
      DivisionIdentity(data, g, x);
      RootProductVanishes(n, i);
      TimesZero(Eval(Quotient(data, g), x));
    }
  }

  lemma {:induction false} RootsNonzero(i: nat)
    ensures Root(i) != 0
  {
    hide Times;
    if i > 0 {
      RootsNonzero(i - 1);
      NoZeroDivisors(Root(i - 1), 2);
    }
  }

  lemma {:induction false} RootAdds(i: nat, j: nat)
    ensures Root(i + j) == Times(Root(i), Root(j))
  {
    hide Times;
    if j == 0 {
      TimesOne(Root(i));
      Commutative(Root(i), 1);
    } else {
      RootAdds(i, j - 1);
      Associative(Root(i), Root(j - 1), 2);
    }
  }

  // 2 has order 255: its first power that is one is the 255th.
  const ORDER: nat := 255

  lemma Product(i: nat, j: nat, x: bv8, y: bv8, z: bv8)
    requires Root(i) == x && Root(j) == y && Unrolled(x, y) == z
    ensures Root(i + j) == z
  {
    hide Root, Times, Unrolled;
    RootAdds(i, j);
    StepsUnrolled(x, y);
  }

  lemma SomePowers()
    ensures Root(15) != 1 && Root(51) != 1 && Root(85) != 1 && Root(ORDER) == 1
  {
    hide Root, Times, Unrolled;
    RootStep(0);
    Units(1);
    Multiples();
    Product(1, 1, 2, 2, 4);
    Product(2, 2, 4, 4, 16);
    Product(4, 4, 16, 16, 29);
    Product(2, 1, 4, 2, 8);
    Product(4, 3, 16, 8, 128);
    Product(8, 7, 29, 128, 38);
    Product(15, 2, 38, 4, 152);
    Product(17, 17, 152, 152, 78);
    Product(34, 17, 78, 152, 10);
    Product(51, 34, 10, 78, 214);
    Product(85, 85, 214, 214, 215);
    Product(170, 85, 215, 214, 1);
  }

  lemma Multiples()
    ensures Unrolled(2, 2) == 4 && Unrolled(4, 4) == 16 && Unrolled(16, 16) == 29 && Unrolled(4, 2) == 8
    ensures Unrolled(16, 8) == 128 && Unrolled(29, 128) == 38 && Unrolled(38, 4) == 152 && Unrolled(152, 152) == 78
    ensures Unrolled(78, 152) == 10 && Unrolled(10, 78) == 214 && Unrolled(214, 214) == 215 && Unrolled(215, 214) == 1
  {}

  lemma {:induction false} PowerOfOne(k: nat, m: nat)
    requires Root(k) == 1
    ensures Root(m * k) == 1
  {
    hide Root, Times;
    if m == 0 {
      RootStep(0);
    } else {
      PowerOfOne(k, m - 1);
      RootAdds((m - 1) * k, k);
      Units(1);
      assert m * k == (m - 1) * k + k;
    }
  }

  lemma RestOfOne(k: nat)
    requires k > 0 && Root(k) == 1 && Root(ORDER) == 1
    ensures Root(ORDER % k) == 1
  {
    hide Root, Times;
    var q, r := ORDER / k, ORDER % k;
    PowerOfOne(k, q);
    RootAdds(q * k, r);
    Units(Root(r));
    assert q * k + r == ORDER;
  }

  // The least such power divides 255, and so 15, 51 or 85 if it is not 255 itself.
  lemma {:induction false} NoSmallOrder(k: nat)
    requires 0 < k < ORDER
    ensures Root(k) != 1
    decreases k
  {
    hide Root, Times;
    if Root(k) == 1 {
      SomePowers();
      RestOfOne(k);
      if ORDER % k > 0 {
        NoSmallOrder(ORDER % k);
      } else {
        Divisors(k);
        if 15 % k == 0 { PowerOfOne(k, 15 / k); } else if 51 % k == 0 { PowerOfOne(k, 51 / k); }
        else { PowerOfOne(k, 85 / k); }
      }
    }
  }

  lemma Divisors(k: nat)
    requires 0 < k < ORDER && ORDER % k == 0
    ensures 15 % k == 0 || 51 % k == 0 || 85 % k == 0
    ensures 15 % k == 0 ==> 15 / k * k == 15
    ensures 51 % k == 0 ==> 51 / k * k == 51
    ensures 85 % k == 0 ==> 85 / k * k == 85
  {
    var q := ORDER / k;
    assert q * k == ORDER;
    if k > 15 {
      assert q < 17 by { if q >= 17 { Arithmetic.MulMono(k, 17, q); } }
      LargeDivisors(k, q);
    } else {
      SmallDivisors(k);
    }
  }

  lemma LargeDivisors(k: nat, q: nat)
    requires 15 < k < ORDER && q < 17 && q * k == ORDER
    ensures k == 17 || k == 51 || k == 85
  {
    assert q == 0 || q == 1 || q == 2 || q == 3 || q == 4 || q == 5 || q == 6 || q == 7 || q == 8 || q == 9 || q == 10
      || q == 11 || q == 12 || q == 13 || q == 14 || q == 15 || q == 16;
  }

  lemma SmallDivisors(k: nat)
    requires 0 < k <= 15 && ORDER % k == 0
    ensures k == 1 || k == 3 || k == 5 || k == 15
  {
    assert k == 1 || k == 2 || k == 3 || k == 4 || k == 5 || k == 6 || k == 7 || k == 8 || k == 9 || k == 10
      || k == 11 || k == 12 || k == 13 || k == 14 || k == 15;
  }

  lemma RootsDistinct(i: nat, j: nat)
    requires i < j < ORDER
    ensures Root(i) != Root(j)
  {
    hide Plus, Times, Root;
    if Root(i) == Root(j) {
      var d := Root(j - i);
      RootAdds(i, j - i);
      Units(Root(i));
      Distributive(Root(i), d, 1);
      PlusLaws(Root(i), Root(i), 0);
      NoZeroDivisors(Root(i), Plus(d, 1));
      RootsNonzero(i);
      PlusLaws(d, 1, 0);
      NoSmallOrder(j - i);
    }
  }

  // The running Horner values of p at s: the quotient of p by (x - s), then the remainder.
  function Synthetic(p: Poly, s: bv8): (q: Poly)
    ensures |q| == |p|
  {
    seq(|p|, j requires 0 <= j < |p| => Eval(p[..j + 1], s))
  }

  lemma SyntheticAt(p: Poly, s: bv8, k: nat)
    requires k < |p|
    ensures Synthetic(p, s)[k] == Plus(if k > 0 then Times(Synthetic(p, s)[k - 1], s) else 0, p[k])
  {
    hide Plus, Times, Eval;
    assert p[..k + 1] == p[..k] + [p[k]];
    EvalAppend(p[..k], p[k], s);
    EvalEmpty(s);
    TimesZero(s);
  }

  lemma SyntheticDivision(p: Poly, s: bv8)
    requires p != [] && Eval(p, s) == 0
    ensures p == MulRoot(Synthetic(p, s)[..|p| - 1], s)
  {
    hide Plus, Times, Eval, Synthetic;
    var n := |p| - 1;
    var q := Synthetic(p, s);
    var m := MulRoot(q[..n], s);
    assert q[n] == 0 by { SyntheticEnd(p, s); }
    forall k | 0 <= k <= n
      ensures p[k] == m[k]
    {
      SyntheticAt(p, s, k);
      var t := if k > 0 then Times(q[k - 1], s) else 0;
      assert m[k] == Plus(q[k], t);
      PlusLaws(t, p[k], 0);
      PlusCancel(p[k], t);
      PlusLaws(q[k], t, 0);
    }
  }

  lemma SyntheticEnd(p: Poly, s: bv8)
    requires p != []
    ensures Synthetic(p, s)[|p| - 1] == Eval(p, s)
  {
    hide Eval;
    assert p[..|p|] == p;
  }

  // A polynomial with n coefficients that vanishes at n distinct points is zero.
  lemma {:induction false} TooManyZeros(p: Poly, n: nat)
    requires |p| == n <= ORDER
    requires IsCodeword(p, n)
    ensures p == Zeros(n)
    decreases n
  {
    hide Plus, Times, Eval, MulRoot, Root, Synthetic;
    if n > 0 {
      var s := Root(n - 1);
      var q := Synthetic(p, s)[..n - 1];
      SyntheticDivision(p, s);
      forall i: nat | i < n - 1
        ensures Eval(q, Root(i)) == 0
      {
        EvalMulRoot(q, s, Root(i));
        NoZeroDivisors(Eval(q, Root(i)), Plus(Root(i), s));
        RootsDistinct(i, n - 1);
        PlusLaws(Root(i), s, 0);
      }
      TooManyZeros(q, n - 1);
      MulRootZeros(n - 1, s);
    }
  }

  lemma MulRootZeros(n: nat, s: bv8)
    ensures MulRoot(Zeros(n), s) == Zeros(n + 1)
  {
    hide Plus, Times;
    TimesZero(s);
    PlusLaws(0, 0, 0);
  }

  // A check word of the right length completes the data to a codeword exactly when it is the remainder.
  lemma RemainderIsOnlyCheckWord(data: seq<bv8>, check: Poly, n: nat)
    requires 1 <= n <= ORDER && |check| == n
    ensures IsCodeword(data + check, n) <==> check == Remainder(data, Generator(n)[1..])
  {
    hide Plus, Times, Eval, Root, Remainder, Generator;
    var rem := Remainder(data, Generator(n)[1..]);
    RemainderCompletesCodeword(data, n);
    if IsCodeword(data + check, n) {
      var p := Add(data + check, data + rem);
      var d := Add(check, rem);
      forall i: nat | i < n
        ensures Eval(d, Root(i)) == 0
      {
        var x := Root(i);
        EvalAdd(data + check, data + rem, x);
        assert Eval(data + check, x) == 0 && Eval(data + rem, x) == 0;
        PlusLaws(0, 0, 0);
        SameDataCancels(data, check, rem);
        EvalLeadingZeros(|data|, d, x);
      }
      TooManyZeros(d, n);
      forall k | 0 <= k < n
        ensures check[k] == rem[k]
      {
        assert d[k] == 0;
        PlusLaws(check[k], rem[k], 0);
      }
    }
  }

  lemma SameDataCancels(data: seq<bv8>, a: Poly, b: Poly)
    requires |a| == |b|
    ensures Add(data + a, data + b) == Zeros(|data|) + Add(a, b)
  {
    hide Plus;
    forall k | 0 <= k < |data| ensures Plus(data[k], data[k]) == 0 { PlusLaws(data[k], data[k], 0); }
  }
}
