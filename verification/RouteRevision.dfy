// Numbered revisions of a route id.
module RouteRevision {
  import opened Options
  import opened TextSpaces
  import opened CanonicalRecord

  const INT_MAX: int := 0x7fff_ffff
  const INT_MIN: int := -0x8000_0000

  // ---- std::stoi ----

  predicate AllDigits(s: string) {
    forall i :: 0 <= i < |s| ==> '0' <= s[i] <= '9'
  }

  // The value of a text that std::stoi reads to its end; None where it stops early or throws.
  function WholeInt(text: string): Option<int> {
    var t := SkipSpaces(text);
    var signed := t != "" && (t[0] == '-' || t[0] == '+');
    var digits := if signed then t[1..] else t;
    if digits == "" || !AllDigits(digits) then None
    else
      var magnitude: int := ParseDecimal(digits);
      var value := if signed && t[0] == '-' then -magnitude else magnitude;
      if INT_MIN <= value <= INT_MAX then Some(value) else None
  }

  lemma {:induction false} DecimalDigits(n: nat)
    ensures AllDigits(Decimal(n))
    decreases n
  {
    if n >= 10 { DecimalDigits(n / 10); }
  }

  lemma DecimalReads(n: nat)
    requires n <= INT_MAX
    ensures WholeInt(Decimal(n)) == Some(n)
  {
    hide Decimal, ParseDecimal;
    DecimalDigits(n);
    DecimalParses(n);
    assert '0' <= Decimal(n)[0] <= '9';
  }

  // ---- revisions ----

  // The revision that an id is of a base id.
  function RevisionOf(id: string, prefix: string): Option<int> {
    if prefix <= id then WholeInt(id[|prefix|..]) else None
  }

  function Max(a: int, b: int): int {
    if a < b then b else a
  }

  function MaxRevision(ids: seq<string>, prefix: string): (m: int)
    ensures 0 <= m <= INT_MAX
  {
    if ids == [] then 0
    else
      var rest, r := MaxRevision(ids[..|ids| - 1], prefix), RevisionOf(ids[|ids| - 1], prefix);
      if r.Some? then Max(rest, r.value) else rest
  }

  lemma {:induction false} MaxAbove(ids: seq<string>, prefix: string, id: string)
    requires id in ids && RevisionOf(id, prefix).Some?
    ensures RevisionOf(id, prefix).value <= MaxRevision(ids, prefix)
  {
    hide RevisionOf;
    var n := |ids| - 1;
    if id != ids[n] { MaxAbove(ids[..n], prefix, id); }
  }

  lemma {:induction false} MaxBelow(ids: seq<string>, prefix: string, bound: nat)
    requires forall id :: id in ids && RevisionOf(id, prefix).Some? ==> RevisionOf(id, prefix).value <= bound
    ensures MaxRevision(ids, prefix) <= bound
  {
    hide RevisionOf;
    if ids != [] { MaxBelow(ids[..|ids| - 1], prefix, bound); }
  }

  function RevisionId(base: string, revision: nat): string {
    base + "-v" + Decimal(revision)
  }

  // A number that no revision in use has reached gives an id that is not in use.
  lemma Unused(ids: seq<string>, base: string, revision: nat)
    requires MaxRevision(ids, base + "-v") < revision <= INT_MAX
    ensures RevisionId(base, revision) !in ids
  {
    hide WholeInt, MaxRevision, Decimal;
    var id, prefix := RevisionId(base, revision), base + "-v";
    assert id == prefix + Decimal(revision);
    assert id[|prefix|..] == Decimal(revision);
    DecimalReads(revision);
    if id in ids { MaxAbove(ids, prefix, id); }
  }

  // One more, as a 32-bit int of two's complement; C++ leaves the overflow undefined.
  function Increment(n: int): int {
    if n < INT_MAX then n + 1 else INT_MIN
  }

  function SignedDecimal(n: int): string {
    if n < 0 then "-" + Decimal(-n) else Decimal(n)
  }

  // The next revision: a new id as long as no revision in use is the largest int.
  method NextRouteRevisionId(ids: seq<string>, base: string) returns (id: string)
    ensures var m := MaxRevision(ids, base + "-v"); id == base + "-v" + SignedDecimal(Increment(m))
    ensures var m := MaxRevision(ids, base + "-v"); m < INT_MAX ==> id == RevisionId(base, m + 1) && id !in ids
  {
    hide RevisionOf, Decimal;
    var prefix := base + "-v";
    var maximumRevision := 0;
    var i := 0;
    while i < |ids|
      invariant 0 <= i <= |ids| && maximumRevision == MaxRevision(ids[..i], prefix)
    {
      var revision := RevisionOf(ids[i], prefix);
      assert ids[..i + 1][..i] == ids[..i];
      if revision.Some? {
        maximumRevision := Max(maximumRevision, revision.value);
      }
      i := i + 1;
    }
    assert ids[..i] == ids;
    if maximumRevision < INT_MAX { Unused(ids, base, maximumRevision + 1); }
    return prefix + SignedDecimal(Increment(maximumRevision));
  }

  // ---- an id is a revision of one base only ----

  predicate NoV(s: string) {
    forall i :: 0 <= i < |s| ==> s[i] != 'v'
  }

  lemma {:induction false} SpacesNoV(s: string)
    requires NoV(SkipSpaces(s))
    ensures NoV(s)
  {
    if s != "" && Space(s[0]) {
      SpacesNoV(s[1..]);
      assert s == [s[0]] + s[1..];
    }
  }

  lemma WholeNoV(s: string)
    requires WholeInt(s).Some?
    ensures NoV(s)
  {
    hide SkipSpaces, ParseDecimal;
    var t := SkipSpaces(s);
    var digits := if t[0] == '-' || t[0] == '+' then t[1..] else t;
    assert AllDigits(digits);
    if digits != t { assert t == [t[0]] + digits; }
    SpacesNoV(s);
  }

  lemma LastV(x: string, u: string, k: nat)
    requires NoV(u) && k < |x + "-v" + u|
    ensures (x + "-v" + u)[k] == 'v' ==> k <= |x| + 1
    ensures (x + "-v" + u)[|x| + 1] == 'v'
  {
    var s := x + "-v" + u;
    if k > |x| + 1 { assert s[k] == u[k - |x| - 2]; }
  }

  // Text after the last v.
  lemma VSplit(x: string, u: string, y: string, v: string)
    requires NoV(u) && NoV(v) && x + "-v" + u == y + "-v" + v
    ensures x == y && u == v
  {
    hide NoV;
    var s := x + "-v" + u;
    LastV(x, u, |y| + 1);
    LastV(y, v, |x| + 1);
    assert s[..|x|] == x && s[|x| + 2..] == u && s[..|y|] == y && s[|y| + 2..] == v;
  }

  // A new revision id counts only for its own base.
  lemma RevisionOnce(base: string, revision: nat, other: string)
    requires revision <= INT_MAX
    ensures var r := RevisionOf(RevisionId(base, revision), other + "-v");
      r.Some? ==> r.value == revision && other == base
  {
    hide WholeInt, Decimal;
    var id, prefix := RevisionId(base, revision), other + "-v";
    DecimalReads(revision);
    if RevisionOf(id, prefix).Some? {
      var u := id[|prefix|..];
      WholeNoV(u);
      WholeNoV(Decimal(revision));
      assert id == other + "-v" + u;
      VSplit(other, u, base, Decimal(revision));
    }
  }

  lemma PrefixHasV(id: string, base: string)
    ensures base + "-v" <= id ==> !NoV(id)
  {
    var prefix := base + "-v";
    if prefix <= id { assert id[|base| + 1] == prefix[|base| + 1]; }
  }

  lemma NotARevision(id: string, base: string)
    requires NoV(id)
    ensures RevisionOf(id, base + "-v") == None
  {
    hide NoV, WholeInt;
    PrefixHasV(id, base);
  }
}
