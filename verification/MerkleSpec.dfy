// The duplicate-last Merkle rule with any number of children, membership proofs, and what they bind. The hash
// function is a parameter.
module MerkleSpec {
  import Arithmetic

  type Hash = string -> string

  const DIGEST: nat := 64

  ghost predicate IsDigest(h: Hash) {
    forall s: string :: |h(s)| == DIGEST
  }

  // ---- levels ----

  // Child j of group i; positions behind the end repeat the last hash.
  function Child(level: seq<string>, a: nat, i: nat, j: nat): string
    requires level != []
  {
    if i * a + j < |level| then level[i * a + j] else level[|level| - 1]
  }

  function Children(level: seq<string>, a: nat, i: nat, n: nat): (c: seq<string>)
    requires level != []
    ensures |c| == n && forall j :: 0 <= j < n ==> c[j] == Child(level, a, i, j)
  {
    if n == 0 then [] else Children(level, a, i, n - 1) + [Child(level, a, i, n - 1)]
  }

  function Join(s: seq<string>): string {
    if s == [] then "" else Join(s[..|s| - 1]) + s[|s| - 1]
  }

  function Parent(h: Hash, level: seq<string>, a: nat, i: nat): string
    requires level != []
  {
    h(Join(Children(level, a, i, a)))
  }

  function GroupCount(n: nat, a: nat): nat
    requires a > 0
  {
    (n + a - 1) / a
  }

  function Parents(h: Hash, level: seq<string>, a: nat, n: nat): (p: seq<string>)
    requires level != []
    ensures |p| == n && forall i :: 0 <= i < n ==> p[i] == Parent(h, level, a, i)
  {
    if n == 0 then [] else Parents(h, level, a, n - 1) + [Parent(h, level, a, n - 1)]
  }

  function NextLevel(h: Hash, level: seq<string>, a: nat): seq<string>
    requires level != [] && a > 0
  {
    Parents(h, level, a, GroupCount(|level|, a))
  }

  lemma GroupCountShrinks(n: nat, a: nat)
    requires n > 1 && a > 1
    ensures 1 <= GroupCount(n, a) < n
  {
    Arithmetic.QuotientBound(a, n + a - 1, 1);
    Arithmetic.MulMono(n, 2, a);
    assert n * a >= 2 * n;
    Arithmetic.QuotientBound(a, n + a - 1, n);
    LessThanProduct(n, a);
  }

  lemma LessThanProduct(n: nat, a: nat)
    requires n > 1 && a > 1
    ensures n + a - 1 < n * a
  {
    assert (n - 1) * (a - 1) == n * a - n - a + 1;
    Arithmetic.MulMono(a - 1, 1, n - 1);
  }

  function Root(h: Hash, level: seq<string>, a: nat): string
    requires level != [] && a > 1
    decreases |level|
  {
    if |level| == 1 then level[0]
    else
      GroupCountShrinks(|level|, a);
      Root(h, NextLevel(h, level, a), a)
  }

  // The hashes of the leaf values.
  function LeafHashes(h: Hash, leaves: seq<string>): (s: seq<string>)
    ensures |s| == |leaves| && forall k :: 0 <= k < |s| ==> s[k] == h(leaves[k])
  {
    if leaves == [] then [] else LeafHashes(h, leaves[..|leaves| - 1]) + [h(leaves[|leaves| - 1])]
  }

  // ---- proofs ----

  datatype Step = Step(childIndex: nat, siblings: seq<string>)

  // The children of group i without child j.
  function Siblings(level: seq<string>, a: nat, i: nat, j: nat): seq<string>
    requires level != [] && j < a
  {
    var c := Children(level, a, i, a);
    c[..j] + c[j + 1..]
  }

  function Path(h: Hash, level: seq<string>, a: nat, k: nat): seq<Step>
    requires level != [] && a > 1
    decreases |level|
  {
    if |level| == 1 then []
    else
      GroupCountShrinks(|level|, a);
      [Step(k % a, Siblings(level, a, k / a, k % a))] + Path(h, NextLevel(h, level, a), a, k / a)
  }

  predicate StepOk(s: Step, a: nat) {
    s.childIndex < a && |s.siblings| + 1 == a
  }

  // The hash put back between its siblings.
  function Group(s: Step, hash: string): seq<string> {
    if s.childIndex <= |s.siblings| then s.siblings[..s.childIndex] + [hash] + s.siblings[s.childIndex..]
    else s.siblings
  }

  function Climb(h: Hash, hash: string, steps: seq<Step>): string
    decreases |steps|
  {
    if steps == [] then hash else Climb(h, h(Join(Group(steps[0], hash))), steps[1..])
  }

  lemma GroupRestored(level: seq<string>, a: nat, k: nat)
    requires k < |level| && a > 1
    ensures var s := Step(k % a, Siblings(level, a, k / a, k % a));
      StepOk(s, a) && Group(s, level[k]) == Children(level, a, k / a, a)
  {
    Arithmetic.DivRem(a, k);
    var c := Children(level, a, k / a, a);
    assert c[k % a] == level[k];
    assert c == c[..k % a] + [c[k % a]] + c[k % a + 1..];
  }

  lemma GroupIndex(n: nat, a: nat, k: nat)
    requires k < n && a > 1
    ensures k / a < GroupCount(n, a)
  {
    Arithmetic.DivRem(a, n + a - 1);
    Arithmetic.QuotientBound(a, k, GroupCount(n, a));
  }

  // Every proof leads from its leaf to the root.
  lemma {:induction false} PathClimbs(h: Hash, level: seq<string>, a: nat, k: nat)
    requires k < |level| && a > 1
    ensures forall s :: s in Path(h, level, a, k) ==> StepOk(s, a)
    ensures Climb(h, level[k], Path(h, level, a, k)) == Root(h, level, a)
    decreases |level|
  {
    hide Siblings, Group, Join, GroupCount, Climb, StepOk, NextLevel;
    if |level| == 1 {
      NoSteps(h, level[0]);
    } else {
      GroupCountShrinks(|level|, a);
      GroupIndex(|level|, a, k);
      GroupRestored(level, a, k);
      NextHash(h, level, a, k);
      PathClimbs(h, NextLevel(h, level, a), a, k / a);
      var s := Step(k % a, Siblings(level, a, k / a, k % a));
      OneStep(h, level[k], s, Path(h, NextLevel(h, level, a), a, k / a));
    }
  }

  lemma NoSteps(h: Hash, hash: string)
    ensures Climb(h, hash, []) == hash
  {}

  lemma OneStep(h: Hash, hash: string, s: Step, rest: seq<Step>)
    ensures Climb(h, hash, [s] + rest) == Climb(h, h(Join(Group(s, hash))), rest)
  {
    hide Join, Group;
    assert ([s] + rest)[1..] == rest;
  }

  // The next level has the hash of each group.
  lemma NextHash(h: Hash, level: seq<string>, a: nat, k: nat)
    requires level != [] && a > 1 && k / a < GroupCount(|level|, a)
    ensures |NextLevel(h, level, a)| == GroupCount(|level|, a)
    ensures NextLevel(h, level, a)[k / a] == h(Join(Children(level, a, k / a, a)))
  {
    hide Join, GroupCount, Children;
    var i := k / a;
    assert NextLevel(h, level, a)[i] == Parent(h, level, a, i);
  }

  // ---- binding ----

  ghost predicate Collision(h: Hash, x: string, y: string) {
    x != y && h(x) == h(y)
  }

  // What is hashed at step i of a climb.
  function Material(h: Hash, hash: string, steps: seq<Step>, i: nat): string
    requires i < |steps|
    decreases i
  {
    var m := Join(Group(steps[0], hash));
    if i == 0 then m else Material(h, h(m), steps[1..], i - 1)
  }

  // The two climbs hash different strings to the same digest at step i.
  ghost predicate CollidesAt(h: Hash, x: string, s: seq<Step>, y: string, t: seq<Step>, i: nat) {
    i < |s| && i < |t| && Collision(h, Material(h, x, s, i), Material(h, y, t, i))
  }

  ghost predicate Digests(s: seq<string>) {
    forall i :: 0 <= i < |s| ==> |s[i]| == DIGEST
  }

  // The root of digests is one.
  lemma {:induction false} RootIsDigest(h: Hash, level: seq<string>, a: nat)
    requires IsDigest(h) && level != [] && a > 1 && Digests(level)
    ensures |Root(h, level, a)| == DIGEST
    decreases |level|
  {
    if |level| > 1 {
      GroupCountShrinks(|level|, a);
      forall i | 0 <= i < |NextLevel(h, level, a)| ensures |NextLevel(h, level, a)[i]| == DIGEST {}
      RootIsDigest(h, NextLevel(h, level, a), a);
    }
  }

  // Digests of the same number are determined by their concatenation.
  lemma {:induction false} JoinInjective(s: seq<string>, t: seq<string>)
    requires |s| == |t| && Digests(s) && Digests(t) && Join(s) == Join(t)
    ensures s == t
    decreases |s|
  {
    if s != [] {
      var n := |s| - 1;
      var x, y := Join(s[..n]), Join(t[..n]);
      assert |s[n]| == |t[n]| == DIGEST;
      SplitEnd(x, s[n], y, t[n]);
      JoinInjective(s[..n], t[..n]);
      assert s == s[..n] + [s[n]] && t == t[..n] + [t[n]];
    }
  }

  lemma SplitEnd(x: string, u: string, y: string, v: string)
    requires x + u == y + v && |u| == |v|
    ensures x == y && u == v
  {
    assert (x + u)[..|x|] == x && (x + u)[|x|..] == u;
    assert (y + v)[..|y|] == y && (y + v)[|y|..] == v;
  }

  // Proofs for the same positions: same child index and number of siblings at every step, siblings of digest size.
  ghost predicate SamePositions(s: seq<Step>, t: seq<Step>) {
    && |s| == |t|
    && forall i :: 0 <= i < |s| ==>
      && s[i].childIndex == t[i].childIndex <= |s[i].siblings| == |t[i].siblings|
      && Digests(s[i].siblings) && Digests(t[i].siblings)
  }

  lemma GroupDigests(s: Step, hash: string)
    requires s.childIndex <= |s.siblings| && Digests(s.siblings) && |hash| == DIGEST
    ensures Digests(Group(s, hash)) && Group(s, hash)[s.childIndex] == hash
  {}

  // Two hashes that climb to the same root from the same position are equal, or the climbs exhibit a collision.
  lemma {:induction false} ClimbBinds(h: Hash, x: string, y: string, s: seq<Step>, t: seq<Step>)
    requires IsDigest(h) && SamePositions(s, t) && |x| == DIGEST && |y| == DIGEST
    requires Climb(h, x, s) == Climb(h, y, t)
    ensures x == y || exists i :: CollidesAt(h, x, s, y, t, i)
    decreases |s|
  {
    hide Join, Group;
    if s != [] {
      var u, v := Join(Group(s[0], x)), Join(Group(t[0], y));
      assert |h(u)| == DIGEST && |h(v)| == DIGEST;
      assert SamePositions(s[1..], t[1..]);
      ClimbBinds(h, h(u), h(v), s[1..], t[1..]);
      if h(u) != h(v) {
        var i :| CollidesAt(h, h(u), s[1..], h(v), t[1..], i);
        LaterCollision(h, x, s, y, t, i);
      } else if u == v {
        GroupDigests(s[0], x);
        GroupDigests(t[0], y);
        GroupSize(s[0], x);
        GroupSize(t[0], y);
        JoinInjective(Group(s[0], x), Group(t[0], y));
      } else {
        assert CollidesAt(h, x, s, y, t, 0);
      }
    }
  }

  lemma LaterCollision(h: Hash, x: string, s: seq<Step>, y: string, t: seq<Step>, i: nat)
    requires s != [] && t != []
    requires CollidesAt(h, h(Join(Group(s[0], x))), s[1..], h(Join(Group(t[0], y))), t[1..], i)
    ensures CollidesAt(h, x, s, y, t, i + 1)
  {
    hide Join, Group;
  }

  lemma GroupSize(s: Step, hash: string)
    requires s.childIndex <= |s.siblings|
    ensures |Group(s, hash)| == |s.siblings| + 1
  {}
}
