// Length-prefixed text of named fields, and why it can be decoded in only one way.
module CanonicalRecord {

  datatype Field = Field(name: string, value: string)

  function Digit(n: nat): char
    requires n < 10
  {
    "0123456789"[n]
  }

  function Decimal(n: nat): (s: string)
    ensures s != ""
    decreases n
  {
    if n < 10 then [Digit(n)] else Decimal(n / 10) + [Digit(n % 10)]
  }

  function DigitValue(c: char): nat {
    if '0' <= c <= '9' then (c - '0') as nat else 0
  }

  function ParseDecimal(s: string): nat {
    if s == "" then 0 else ParseDecimal(s[..|s| - 1]) * 10 + DigitValue(s[|s| - 1])
  }

  predicate NoColon(s: string) {
    forall i :: 0 <= i < |s| ==> s[i] != ':'
  }

  lemma {:induction false} DecimalParses(n: nat)
    ensures ParseDecimal(Decimal(n)) == n && NoColon(Decimal(n))
    decreases n
  {
    if n < 10 {
      DigitParses(n);
      assert [Digit(n)][..0] == "";
    } else {
      DecimalParses(n / 10);
      DigitParses(n % 10);
      var s := Decimal(n);
      assert s[..|s| - 1] == Decimal(n / 10);
    }
  }

  lemma DigitParses(n: nat)
    requires n < 10
    ensures DigitValue(Digit(n)) == n && Digit(n) != ':'
  {}

  // What a leaf hashes.
  function LeafInput(f: Field): string {
    f.name + ":" + Decimal(|f.value|) + ":" + f.value
  }

  function CanonicalText(fields: seq<Field>): string {
    if fields == [] then "" else LeafInput(fields[0]) + "\n" + CanonicalText(fields[1..])
  }

  lemma {:induction false} CanonicalAppend(fields: seq<Field>, f: Field)
    ensures CanonicalText(fields + [f]) == CanonicalText(fields) + LeafInput(f) + "\n"
  {
    hide LeafInput;
    var all := fields + [f];
    if fields == [] {
      assert all == [f] && all[1..] == [];
      assert LeafInput(f) + "\n" + "" == "" + LeafInput(f) + "\n";
    } else {
      CanonicalAppend(fields[1..], f);
      assert all[1..] == fields[1..] + [f];
      var x, y, z := LeafInput(fields[0]) + "\n", CanonicalText(fields[1..]), LeafInput(f) + "\n";
      assert x + (y + LeafInput(f) + "\n") == x + y + LeafInput(f) + "\n";
    }
  }

  method CanonicalRecordFromFields(fields: seq<Field>) returns (canonical: string)
    ensures canonical == CanonicalText(fields)
  {
    hide CanonicalText, Decimal;
    canonical := "";
    var i := 0;
    CanonicalNothing();
    assert fields[..0] == [];
    while i < |fields|
      invariant 0 <= i <= |fields| && canonical == CanonicalText(fields[..i])
    {
      var field := fields[i];
      CanonicalAppend(fields[..i], field);
      assert fields[..i + 1] == fields[..i] + [field];
      ghost var before := canonical;
      canonical := canonical + field.name;
      canonical := canonical + ":";
      canonical := canonical + Decimal(|field.value|);
      canonical := canonical + ":";
      canonical := canonical + field.value;
      canonical := canonical + "\n";
      assert canonical == before + LeafInput(field) + "\n";
      i := i + 1;
    }
    assert fields[..i] == fields;
  }

  lemma CanonicalNothing()
    ensures CanonicalText([]) == ""
  {}

  // ---- unique decoding ----

  // Text up to the first colon.
  lemma ColonSplit(x: string, u: string, y: string, v: string)
    requires NoColon(x) && NoColon(y) && x + ":" + u == y + ":" + v
    ensures x == y && u == v
  {
    var s := x + ":" + u;
    assert s[|x|] == ':' && s[|y|] == ':';
    assert forall i :: 0 <= i < |x| ==> s[i] == x[i];
    assert forall i :: 0 <= i < |y| ==> s[i] == y[i];
    assert s[..|x|] == x && s[|x| + 1..] == u && s[..|y|] == y && s[|y| + 1..] == v;
  }

  lemma DecimalInjective(m: nat, n: nat)
    requires Decimal(m) == Decimal(n)
    ensures m == n
  {
    hide Decimal, ParseDecimal;
    DecimalParses(m);
    DecimalParses(n);
  }

  // One field and what follows it.
  lemma FieldSplit(f: Field, u: string, g: Field, v: string)
    requires NoColon(f.name) && NoColon(g.name) && LeafInput(f) + u == LeafInput(g) + v
    ensures f == g && u == v
  {
    hide Decimal, NoColon;
    var df, dg := Decimal(|f.value|), Decimal(|g.value|);
    DecimalParses(|f.value|);
    DecimalParses(|g.value|);
    assert LeafInput(f) + u == f.name + ":" + (df + ":" + (f.value + u));
    assert LeafInput(g) + v == g.name + ":" + (dg + ":" + (g.value + v));
    ColonSplit(f.name, df + ":" + (f.value + u), g.name, dg + ":" + (g.value + v));
    ColonSplit(df, f.value + u, dg, g.value + v);
    DecimalInjective(|f.value|, |g.value|);
    assert (f.value + u)[..|f.value|] == f.value && (f.value + u)[|f.value|..] == u;
    assert (g.value + v)[..|g.value|] == g.value && (g.value + v)[|g.value|..] == v;
  }

  predicate NamesOk(fields: seq<Field>) {
    forall i :: 0 <= i < |fields| ==> NoColon(fields[i].name)
  }

  // Records with colon-free names are determined by their canonical text.
  lemma {:induction false} CanonicalInjective(fields: seq<Field>, others: seq<Field>)
    requires NamesOk(fields) && NamesOk(others) && CanonicalText(fields) == CanonicalText(others)
    ensures fields == others
  {
    hide LeafInput, NoColon;
    if fields != [] && others != [] {
      var u, v := "\n" + CanonicalText(fields[1..]), "\n" + CanonicalText(others[1..]);
      assert CanonicalText(fields) == LeafInput(fields[0]) + u && CanonicalText(others) == LeafInput(others[0]) + v;
      FieldSplit(fields[0], u, others[0], v);
      assert u[1..] == CanonicalText(fields[1..]) && v[1..] == CanonicalText(others[1..]);
      CanonicalInjective(fields[1..], others[1..]);
      assert fields == [fields[0]] + fields[1..] && others == [others[0]] + others[1..];
    }
  }

  // What colon-free names share their text with: exactly the other lists with colons drop out.
  lemma CanonicalExactly(fields: seq<Field>, others: seq<Field>)
    requires NamesOk(fields) && CanonicalText(fields) == CanonicalText(others)
    ensures fields == others <==> NamesOk(others)
  {
    hide CanonicalText, NoColon;
    if NamesOk(others) { CanonicalInjective(fields, others); }
  }

  // Any two neighbouring fields can be hidden in one whose name has colons.
  function Swallowed(f: Field, g: Field): Field {
    Field(LeafInput(f) + "\n" + g.name, g.value)
  }

  lemma ColonsAreAmbiguous(f: Field, g: Field, rest: seq<Field>)
    ensures CanonicalText([f, g] + rest) == CanonicalText([Swallowed(f, g)] + rest)
    ensures [f, g] + rest != [Swallowed(f, g)] + rest && !NamesOk([Swallowed(f, g)] + rest)
  {
    hide Decimal, CanonicalText;
    var two, one := [f, g] + rest, [Swallowed(f, g)] + rest;
    CanonicalFirst(f, [g] + rest);
    CanonicalFirst(g, rest);
    CanonicalFirst(Swallowed(f, g), rest);
    assert two == [f] + ([g] + rest) && |two| == |one| + 1;
    var d, after := Decimal(|g.value|), CanonicalText(rest);
    var tail := ":" + d + ":" + g.value;
    assert LeafInput(g) == g.name + tail;
    assert LeafInput(Swallowed(f, g)) == LeafInput(f) + "\n" + LeafInput(g);
    assert LeafInput(f) + "\n" + (LeafInput(g) + "\n" + after) == LeafInput(f) + "\n" + LeafInput(g) + "\n" + after;
    assert one[0].name[|f.name|] == ':';
  }

  lemma CanonicalFirst(f: Field, rest: seq<Field>)
    ensures CanonicalText([f] + rest) == LeafInput(f) + "\n" + CanonicalText(rest)
  {
    hide LeafInput;
    assert ([f] + rest)[1..] == rest;
  }
}
