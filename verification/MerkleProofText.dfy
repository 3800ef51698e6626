// Membership proofs of the binary tree as text: entries of a direction and a digest, the leaf's own entry first.
module MerkleProofText {
  import opened Options
  import opened MerkleSpec
  import opened MerkleRows

  const ENTRY: nat := DIGEST + 2

  predicate Direction(s: string) {
    s == "L:" || s == "R:"
  }

  // The entries of the siblings from a level up to the root.
  function SiblingEntries(h: Hash, level: seq<string>, k: nat): string
    requires k < |level|
    decreases |level|
  {
    if |level| == 1 then ""
    else
      PadEven(level);
      PairShrinks(h, level, k);
      (if k % 2 == 0 then "R:" + Pad(level)[k + 1] else "L:" + Pad(level)[k - 1])
      + SiblingEntries(h, PairUp(h, Pad(level)), k / 2)
  }

  lemma PairShrinks(h: Hash, level: seq<string>, k: nat)
    requires |level| > 1 && k < |level|
    ensures k / 2 < |PairUp(h, Pad(level))| < |level|
    ensures k % 2 == 0 ==> k + 1 < |Pad(level)|
    ensures k <= 2 * (k / 2) + 1 < |Pad(level)|
  {}

  function ProofText(h: Hash, level: seq<string>, k: nat): string
    requires k < |level|
  {
    (if |level| == 1 || k % 2 == 0 then "L:" else "R:") + level[k] + SiblingEntries(h, level, k)
  }

  // ---- checking ----

  // The hash reached from a hash by the entries of s.
  function ClimbText(h: Hash, hash: string, s: string): Option<string>
    decreases |s|
  {
    if s == "" then Some(hash)
    else if |s| < ENTRY || !Direction(s[..2]) then None
    else
      var sibling := s[2..ENTRY];
      ClimbText(h, if s[..2] == "L:" then h(sibling + hash) else h(hash + sibling), s[ENTRY..])
  }

  predicate AcceptsText(h: Hash, root: string, proof: string) {
    && |proof| >= ENTRY && |proof| % ENTRY == 0 && Direction(proof[..2])
    && ClimbText(h, proof[2..ENTRY], proof[ENTRY..]) == Some(root)
  }

  lemma ClimbEntry(h: Hash, hash: string, dir: string, sibling: string, rest: string)
    requires Direction(dir) && |sibling| == DIGEST
    ensures ClimbText(h, hash, dir + sibling + rest)
      == ClimbText(h, if dir == "L:" then h(sibling + hash) else h(hash + sibling), rest)
  {
    var s := dir + sibling + rest;
    assert s[..2] == dir && s[2..ENTRY] == sibling && s[ENTRY..] == rest;
  }

  lemma PadDigests(level: seq<string>)
    requires Digests(level)
    ensures Digests(Pad(level))
  {}

  // The siblings lead from a leaf to the root.
  lemma {:induction false} SiblingsClimb(h: Hash, level: seq<string>, k: nat)
    requires k < |level| && IsDigest(h) && Digests(level)
    ensures |SiblingEntries(h, level, k)| % ENTRY == 0
    ensures ClimbText(h, level[k], SiblingEntries(h, level, k)) == Some(Root(h, level, 2))
    decreases |level|
  {
    hide ClimbText, PairUp, Pad, IsDigest, NextLevel, Digests;
    if |level| == 1 {
      ClimbNothing(h, level[k]);
    } else {
      PairShrinks(h, level, k);
      PairsAreNextLevel(h, level);
      GroupCountShrinks(|level|, 2);
      var row := Pad(level);
      var next := PairUp(h, row);
      PadDigests(level);
      NextDigests(h, row);
      SiblingsClimb(h, next, k / 2);
      SiblingsStep(h, level, k);
      StepLength(h, level, k);
    }
  }

  lemma ClimbNothing(h: Hash, hash: string)
    ensures ClimbText(h, hash, "") == Some(hash)
  {}

  lemma NextDigests(h: Hash, row: seq<string>)
    requires IsDigest(h)
    ensures Digests(PairUp(h, row))
  {
    var p := PairUp(h, row);
    forall i | 0 <= i < |p| ensures |p[i]| == DIGEST { assert |h(row[2 * i] + row[2 * i + 1])| == DIGEST; }
  }

  lemma SiblingsStep(h: Hash, level: seq<string>, k: nat)
    requires |level| > 1 && k < |level| && Digests(Pad(level)) && k / 2 < |PairUp(h, Pad(level))|
    ensures ClimbText(h, level[k], SiblingEntries(h, level, k))
      == ClimbText(h, PairUp(h, Pad(level))[k / 2], SiblingEntries(h, PairUp(h, Pad(level)), k / 2))
  {
    hide ClimbText, SiblingEntries, Pad;
    PairShrinks(h, level, k);
    SiblingsUnfold(h, level, k);
    var row := Pad(level);
    PadKeeps(level, k);
    var rest := SiblingEntries(h, PairUp(h, row), k / 2);
    if k % 2 == 0 {
      assert 2 * (k / 2) == k;
      ClimbEntry(h, level[k], "R:", row[k + 1], rest);
    } else {
      assert 2 * (k / 2) == k - 1;
      ClimbEntry(h, level[k], "L:", row[k - 1], rest);
    }
  }

  lemma PadKeeps(level: seq<string>, k: nat)
    requires k < |level|
    ensures Pad(level)[k] == level[k]
  {}

  lemma SiblingsUnfold(h: Hash, level: seq<string>, k: nat)
    requires |level| > 1 && k < |level| && k / 2 < |PairUp(h, Pad(level))| && k % 2 < 2
    requires k % 2 == 0 ==> k + 1 < |Pad(level)|
    ensures SiblingEntries(h, level, k)
      == (if k % 2 == 0 then "R:" + Pad(level)[k + 1] else "L:" + Pad(level)[k - 1])
        + SiblingEntries(h, PairUp(h, Pad(level)), k / 2)
  {
    hide PairUp, Pad;
  }

  lemma StepLength(h: Hash, level: seq<string>, k: nat)
    requires |level| > 1 && k < |level| && Digests(Pad(level)) && k / 2 < |PairUp(h, Pad(level))|
    requires |SiblingEntries(h, PairUp(h, Pad(level)), k / 2)| % ENTRY == 0
    ensures |SiblingEntries(h, level, k)| % ENTRY == 0
  {
    hide SiblingEntries, PairUp, Pad;
    PairShrinks(h, level, k);
    SiblingsUnfold(h, level, k);
    var n := |SiblingEntries(h, PairUp(h, Pad(level)), k / 2)|;
    assert |SiblingEntries(h, level, k)| == ENTRY + n;
  }

  // Every proof the tree writes is accepted.
  lemma ProofTextAccepted(h: Hash, level: seq<string>, k: nat)
    requires k < |level| && IsDigest(h) && Digests(level)
    ensures AcceptsText(h, Root(h, level, 2), ProofText(h, level, k))
  {
    hide ClimbText, SiblingEntries, IsDigest, Root;
    SiblingsClimb(h, level, k);
    var rest := SiblingEntries(h, level, k);
    var p := ProofText(h, level, k);
    assert |level[k]| == DIGEST;
    EntryParts(if |level| == 1 || k % 2 == 0 then "L:" else "R:", level[k], rest);
    ProofAccepts(h, p, Root(h, level, 2), level[k], rest);
  }

  lemma EntryParts(dir: string, hash: string, rest: string)
    requires |dir| == 2 && |hash| == DIGEST
    ensures var p := dir + hash + rest;
      |p| == ENTRY + |rest| && p[..2] == dir && p[2..ENTRY] == hash && p[ENTRY..] == rest
  {}

  lemma ProofAccepts(h: Hash, p: string, root: string, hash: string, rest: string)
    requires |p| == ENTRY + |rest| && p[2..ENTRY] == hash && p[ENTRY..] == rest && Direction(p[..2])
    requires |rest| % ENTRY == 0 && ClimbText(h, hash, rest) == Some(root)
    ensures AcceptsText(h, root, p)
  {
    hide ClimbText;
  }

  // ---- binding ----

  // What is hashed at entry i.
  function TextMaterial(h: Hash, hash: string, s: string, i: nat): string
    decreases i
  {
    if |s| < ENTRY then hash
    else
      var m := if s[..2] == "L:" then s[2..ENTRY] + hash else hash + s[2..ENTRY];
      if i == 0 then m else TextMaterial(h, h(m), s[ENTRY..], i - 1)
  }

  ghost predicate TextsCollide(h: Hash, x: string, s: string, y: string, t: string, i: nat) {
    Collision(h, TextMaterial(h, x, s, i), TextMaterial(h, y, t, i))
  }

  lemma LaterText(h: Hash, x: string, s: string, i: nat)
    requires |s| >= ENTRY
    ensures var u := if s[..2] == "L:" then s[2..ENTRY] + x else x + s[2..ENTRY];
      TextMaterial(h, x, s, i + 1) == TextMaterial(h, h(u), s[ENTRY..], i)
  {}

  // The same directions, entry by entry.
  predicate SameDirections(s: string, t: string)
    decreases |s|
  {
    |s| == |t| && (|s| >= ENTRY ==> s[..2] == t[..2] && SameDirections(s[ENTRY..], t[ENTRY..]))
  }

  lemma {:induction false} TextBinds(h: Hash, x: string, s: string, y: string, t: string)
    requires IsDigest(h) && |x| == DIGEST && |y| == DIGEST && SameDirections(s, t)
    requires ClimbText(h, x, s).Some? && ClimbText(h, x, s) == ClimbText(h, y, t)
    ensures x == y || exists i: nat :: TextsCollide(h, x, s, y, t, i)
    decreases |s|
  {
    if s != "" {
      var u := if s[..2] == "L:" then s[2..ENTRY] + x else x + s[2..ENTRY];
      var v := if t[..2] == "L:" then t[2..ENTRY] + y else y + t[2..ENTRY];
      assert |h(u)| == DIGEST && |h(v)| == DIGEST;
      TextBinds(h, h(u), s[ENTRY..], h(v), t[ENTRY..]);
      if h(u) != h(v) {
        var i: nat :| TextsCollide(h, h(u), s[ENTRY..], h(v), t[ENTRY..], i);
        LaterText(h, x, s, i);
        LaterText(h, y, t, i);
        assert TextsCollide(h, x, s, y, t, i + 1);
      } else if u == v {
        if s[..2] == "L:" { SplitEnd(s[2..ENTRY], x, t[2..ENTRY], y); }
        else { SplitEnd(x, s[2..ENTRY], y, t[2..ENTRY]); }
      } else {
        assert TextsCollide(h, x, s, y, t, 0);
      }
    }
  }

  // Two accepted proofs of the same root in the same directions start from the same leaf hash, or collide.
  lemma AcceptedTextsBind(h: Hash, root: string, p: string, q: string)
    requires IsDigest(h) && AcceptsText(h, root, p) && AcceptsText(h, root, q) && SameDirections(p[ENTRY..], q[ENTRY..])
    ensures p[2..ENTRY] == q[2..ENTRY] || exists i: nat :: TextsCollide(h, p[2..ENTRY], p[ENTRY..], q[2..ENTRY],
        q[ENTRY..], i)
  {
    hide ClimbText, SameDirections, TextsCollide;
    TextBinds(h, p[2..ENTRY], p[ENTRY..], q[2..ENTRY], q[ENTRY..]);
  }
}
