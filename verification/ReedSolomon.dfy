// Generator polynomials and remainders of the Reed-Solomon code of
// ISO/IEC 18004:2015 section 7.5.2. Polynomials are big endian: p[0] is the leading coefficient.
module ReedSolomon {
  import opened GaloisField

  type Poly = seq<bv8>

  const DEGREE_MAX: nat := 30

  // ---- specification ----

  function Eval(p: Poly, x: bv8): bv8 {
    if p == [] then 0 else Plus(Times(Eval(p[..|p| - 1], x), x), p[|p| - 1])
  }

  function Zeros(n: nat): (p: Poly)
    ensures |p| == n
  {
    seq(n, _ => 0)
  }

  function Add(p: Poly, q: Poly): (r: Poly)
    requires |p| == |q|
    ensures |r| == |p|
  {
    seq(|p|, j requires 0 <= j < |p| => Plus(p[j], q[j]))
  }

  function ScalePoly(p: Poly, f: bv8): (r: Poly)
    ensures |r| == |p|
  {
    seq(|p|, j requires 0 <= j < |p| => Times(p[j], f))
  }

  // p * (x - r)
  function MulRoot(p: Poly, r: bv8): (q: Poly)
    ensures |q| == |p| + 1
  {
    seq(|p| + 1, j requires 0 <= j <= |p| =>
      Plus(if j < |p| then p[j] else 0, if j > 0 then Times(p[j - 1], r) else 0))
  }

  // The i-th power of the field generator 0x02.
  function Root(i: nat): bv8 {
    if i == 0 then 1 else Times(Root(i - 1), 2)
  }

  // (x - r^0) (x - r^1) ... (x - r^{n-1})
  function RootProduct(n: nat, x: bv8): bv8 {
    if n == 0 then 1 else Times(RootProduct(n - 1, x), Plus(x, Root(n - 1)))
  }

  // The coefficients of that product, leading 1 included.
  function Generator(n: nat): (p: Poly)
    ensures |p| == n + 1
  {
    if n == 0 then [1] else MulRoot(Generator(n - 1), Root(n - 1))
  }

  // One step of the shift register that divides by [1] + g.
  function DivideStep(r: Poly, g: Poly, d: bv8): (r': Poly)
    requires |r| == |g| > 0
    ensures |r'| == |r|
  {
    seq(|g|, j requires 0 <= j < |g| =>
      Plus(if j + 1 < |g| then r[j + 1] else 0, Times(g[j], Plus(d, r[0]))))
  }

  function Remainder(data: seq<bv8>, g: Poly): (r: Poly)
    requires |g| > 0
    ensures |r| == |g|
  {
    if data == [] then Zeros(|g|) else DivideStep(Remainder(data[..|data| - 1], g), g, data[|data| - 1])
  }

  // The leading factors taken by the division: the quotient.
  function Quotient(data: seq<bv8>, g: Poly): (q: Poly)
    requires |g| > 0
    ensures |q| == |data|
  {
    if data == [] then []
    else
      var d := data[..|data| - 1];
      Quotient(d, g) + [Plus(data[|data| - 1], Remainder(d, g)[0])]
  }

  // Every root of the degree-n generator is a zero of the word.
  ghost predicate IsCodeword(word: Poly, n: nat) {
    forall i: nat :: i < n ==> Eval(word, Root(i)) == 0
  }

  // ---- the in-place algorithms ----

  lemma MulRootAt(p: Poly, r: bv8, k: nat)
    requires k < |p|
    ensures MulRoot(p, r)[k + 1] == Plus(Times(p[k], r), if k + 1 < |p| then p[k + 1] else 0)
  {
    hide Times, Plus;
    PlusLaws(Times(p[k], r), if k + 1 < |p| then p[k + 1] else 0, 0);
  }

  // Multiplies the polynomial held in result[..degree] by (x - root), dropping the term that overflows.
  method MultiplyInPlace(result: array<bv8>, degree: nat, root: bv8)
    requires 1 <= degree <= result.Length
    modifies result
    ensures result[..degree] == MulRoot(old(result[..degree]), root)[1..]
    ensures result[degree..] == old(result[degree..])
  {
    hide Plus, Times, MulRoot;
    ghost var p := result[..degree];
    ghost var q := MulRoot(p, root);
    var j := 0;
    while j < degree
      invariant 0 <= j <= degree
      invariant forall k :: 0 <= k < j ==> result[k] == q[k + 1]
      invariant forall k :: j <= k < degree ==> result[k] == p[k]
      invariant forall k :: degree <= k < result.Length ==> result[k] == old(result[k])
    {
      MulRootAt(p, root, j);
      var product := ReedSolomonMultiply(result[j], root);
      result[j] := product;
      PlusLaws(product, 0, 0);
      if j + 1 < degree {
        PlusIsXor(product, p[j + 1]);
        result[j] := result[j] ^ result[j + 1];
      }
      j := j + 1;
    }
    assert result[..degree] == q[1..];
  }

  // Generator(i) with leading zeros to length n + 1.
  function Padded(i: nat, n: nat): (p: Poly)
    requires i <= n
    ensures |p| == n + 1
  {
    Zeros(n - i) + Generator(i)
  }

  lemma PaddedStep(i: nat, n: nat)
    requires i < n
    ensures Padded(i + 1, n)[1..] == MulRoot(Padded(i, n)[1..], Root(i))[1..]
  {
    hide Plus, Times, Root;
    hide MulRoot, Padded;
    var p, q := Padded(i, n)[1..], Padded(i + 1, n);
    forall k | 0 < k <= n ensures MulRoot(p, Root(i))[k] == q[k] { PaddedTerm(i, n, k); }
  }

  lemma MulRootIs(p: Poly, r: bv8, k: nat)
    requires k <= |p|
    ensures MulRoot(p, r)[k] == Plus(if k < |p| then p[k] else 0, if k > 0 then Times(p[k - 1], r) else 0)
  {
    hide Plus, Times;
  }

  lemma PaddedTerm(i: nat, n: nat, k: nat)
    requires i < n && 0 < k <= n
    ensures MulRoot(Padded(i, n)[1..], Root(i))[k] == Padded(i + 1, n)[k]
  {
    hide Plus, Times, Root, MulRoot;
    var g, r := Generator(i), Root(i);
    var p := Padded(i, n)[1..];
    assert Padded(i + 1, n) == Zeros(n - i - 1) + MulRoot(g, r);
    hide Generator;
    TimesZero(r);
    PlusLaws(0, 0, 0);
    PlusLaws(g[0], 0, 0);
    var z := n - i - 1;
    assert p == Zeros(z) + g;
    MulRootIs(p, r, k);
    if k >= z { MulRootIs(g, r, k - z); }
  }

  method ComputeDivisor(degree: nat, result: array<bv8>)
    requires 1 <= degree <= DEGREE_MAX && degree <= result.Length
    modifies result
    ensures result[..degree] == Generator(degree)[1..]
    ensures result[degree..] == old(result[degree..])
  {
    hide Plus, Times, Root, Generator, MulRoot, Padded;
    var j := 0;
    while j < degree
      invariant 0 <= j <= degree
      invariant forall k :: 0 <= k < j ==> result[k] == 0
      invariant forall k :: degree <= k < result.Length ==> result[k] == old(result[k])
    {
      result[j] := 0;
      j := j + 1;
    }
    result[degree - 1] := 1;
    PaddedStart(degree);
    assert result[..degree] == Padded(0, degree)[1..];
    var root: bv8 := 1;
    RootStep(0);
    var i := 0;
    while i < degree
      invariant 0 <= i <= degree
      invariant root == Root(i)
      invariant result[..degree] == Padded(i, degree)[1..]
      invariant result[degree..] == old(result[degree..])
    {
      PaddedStep(i, degree);
      RootStep(i);
      MultiplyInPlace(result, degree, root);
      root := ReedSolomonMultiply(root, 0x02);
      i := i + 1;
    }
    PaddedEnd(degree);
  }

  lemma PaddedStart(n: nat)
    requires 0 < n
    ensures Padded(0, n)[1..] == Zeros(n - 1) + [1]
  {}

  lemma PaddedEnd(n: nat)
    ensures Padded(n, n) == Generator(n)
  {}

  lemma RootStep(i: nat)
    ensures Root(0) == 1
    ensures Root(i + 1) == Times(Root(i), 2)
  {
    hide Times;
  }

  // Moves the register result[offset..offset+degree] one place left and clears its last byte.
  method ShiftInPlace(result: array<bv8>, offset: nat, degree: nat)
    requires 1 <= degree && offset + degree <= result.Length
    modifies result
    ensures forall k :: offset <= k < offset + degree ==>
      result[k] == if k + 1 < offset + degree then old(result[k + 1]) else 0
    ensures forall k :: 0 <= k < result.Length && !(offset <= k < offset + degree) ==> result[k] == old(result[k])
  {
    var m := 0;
    while m < degree - 1
      invariant 0 <= m < degree
      invariant forall k :: 0 <= k < result.Length ==>
        result[k] == old(if offset <= k < offset + m then result[k + 1] else result[k])
    {
      result[offset + m] := result[offset + m + 1];
      m := m + 1;
    }
    result[offset + degree - 1] := 0;
  }

  lemma DivideStepAt(r: Poly, g: Poly, d: bv8, k: nat)
    requires |r| == |g| > k
    ensures DivideStep(r, g, d)[k] == Plus(if k + 1 < |g| then r[k + 1] else 0, Times(g[k], Plus(d, r[0])))
  {
    hide Plus, Times;
  }

  // Adds factor * generator to the register.
  method AddScaledInPlace(generator: array<bv8>, degree: nat, factor: bv8, result: array<bv8>, offset: nat)
    requires 1 <= degree <= generator.Length && offset + degree <= result.Length && generator != result
    modifies result
    ensures forall k :: offset <= k < offset + degree ==>
      result[k] == Plus(old(result[k]), Times(generator[k - offset], factor))
    ensures forall k :: 0 <= k < result.Length && !(offset <= k < offset + degree) ==> result[k] == old(result[k])
  {
    hide *;
    var j := 0;
    while j < degree
      invariant 0 <= j <= degree
      invariant forall k :: offset <= k < offset + j ==>
        result[k] == Plus(old(result[k]), Times(generator[k - offset], factor))
      invariant forall k :: 0 <= k < result.Length && !(offset <= k < offset + j) ==> result[k] == old(result[k])
    {
      var product := ReedSolomonMultiply(generator[j], factor);
      PlusIsXor(result[offset + j], product);
      result[offset + j] := result[offset + j] ^ product;
      j := j + 1;
    }
  }

  // One data byte enters the register held in result[offset..offset+degree].
  method DivideInPlace(datum: bv8, generator: array<bv8>, degree: nat, result: array<bv8>, offset: nat)
    requires 1 <= degree <= generator.Length && offset + degree <= result.Length && generator != result
    modifies result
    ensures result[offset..offset + degree] ==
      DivideStep(old(result[offset..offset + degree]), generator[..degree], datum)
    ensures forall k :: 0 <= k < result.Length && !(offset <= k < offset + degree) ==> result[k] == old(result[k])
  {
    hide *;
    ghost var r := result[offset..offset + degree];
    ghost var g := generator[..degree];
    var factor := datum ^ result[offset];
    PlusIsXor(datum, r[0]);
    ShiftInPlace(result, offset, degree);
    AddScaledInPlace(generator, degree, factor, result, offset);
    forall k | 0 <= k < degree
      ensures result[offset..offset + degree][k] == DivideStep(r, g, datum)[k]
    {
      DivideStepAt(r, g, datum, k);
      assert result[offset + k] == Plus(if k + 1 < degree then r[k + 1] else 0, Times(g[k], factor));
    }
  }

  // The data bytes are data[start..start+dataLen] and the remainder is left in
  // result[offset..offset+degree]; both may lie in one buffer.
  method ComputeRemainder(data: array<bv8>, start: nat, dataLen: nat, generator: array<bv8>, degree: nat,
                          result: array<bv8>, offset: nat)
    requires 1 <= degree <= DEGREE_MAX && degree <= generator.Length
    requires start + dataLen <= data.Length && offset + degree <= result.Length
    requires generator != result && (data != result || start + dataLen <= offset)
    modifies result
    ensures result[offset..offset + degree] ==
      Remainder(old(data[start..start + dataLen]), generator[..degree])
    ensures forall k :: 0 <= k < result.Length && !(offset <= k < offset + degree) ==> result[k] == old(result[k])
  {
    hide DivideStep, Remainder;
    var m := 0;
    while m < degree
      invariant 0 <= m <= degree
      invariant forall k :: offset <= k < offset + m ==> result[k] == 0
      invariant forall k :: 0 <= k < result.Length && !(offset <= k < offset + degree) ==> result[k] == old(result[k])
    {
      result[offset + m] := 0;
      m := m + 1;
    }
    ghost var g := generator[..degree];
    ghost var d := old(data[start..start + dataLen]);
    RemainderStart(g);
    assert result[offset..offset + degree] == Zeros(degree);
    var i := 0;
    while i < dataLen
      invariant 0 <= i <= dataLen
      invariant result[offset..offset + degree] == Remainder(d[..i], g)
      invariant forall k :: 0 <= k < result.Length && !(offset <= k < offset + degree) ==> result[k] == old(result[k])
    {
      assert data[start + i] == d[i];
      RemainderStep(d, i, g);
      DivideInPlace(data[start + i], generator, degree, result, offset);
      i := i + 1;
    }
    assert d[..dataLen] == d;
  }

  lemma RemainderStart(g: Poly)
    requires |g| > 0
    ensures Remainder([], g) == Zeros(|g|)
  {}

  lemma RemainderStep(d: seq<bv8>, i: nat, g: Poly)
    requires |g| > 0 && i < |d|
    ensures Remainder(d[..i + 1], g) == DivideStep(Remainder(d[..i], g), g, d[i])
  {
    hide DivideStep;
    assert d[..i + 1][..i] == d[..i];
  }

}
